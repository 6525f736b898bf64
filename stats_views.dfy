/**
 * The organizers' statistics endpoints: counts of applications grouped by
 * their answers, the reimbursement figures, and the attendance of each
 * workshop. Every grouping is `Grouping.GroupCount` or `Grouping.GroupSum`;
 * the display names come from label tables, and a code missing from a
 * strict table makes the whole response fail.
 */
module StatsViews {
  import opened Common
  import opened Grouping
  import WorkshopsViews

  // ---------------------------------------------------------------------
  // Applications
  // ---------------------------------------------------------------------

  /** The application fields the statistics read. */
  datatype Application = Application(
    status: string,
    gender: string,
    classStatus: string,
    participant: string,
    degree: string,
    hearabout: string,
    attendanceType: string,
    firstTimer: bool,
    tshirtSize: string,
    diet: string,
    otherDiet: Option<string>,
    hardware: Option<string>)

  /** The stored codes the statistics compare against. */
  datatype Codes = Codes(attended: string, confirmed: string, mentor: string)

  /** Display names of the choice fields, keyed by stored code. */
  datatype Labels = Labels(
    status: map<string, string>,
    gender: map<string, string>,
    classStatus: map<string, string>,
    tshirt: map<string, string>)

  /** The applications with status `code`, in order. */
  function WithStatus(apps: seq<Application>, code: string): (r: seq<Application>)
    ensures |r| <= |apps|
    ensures forall a :: a in r <==> a in apps && a.status == code
  {
    Filter(apps, (a: Application) => a.status == code)
  }

  /** Each application with status `code` is kept as often as it occurs, every other one not at all. */
  lemma WithStatusCounts(apps: seq<Application>, code: string)
    ensures forall a :: multiset(WithStatus(apps, code))[a] == if a.status == code then multiset(apps)[a] else 0
  {
    FilterCounts(apps, (a: Application) => a.status == code);
  }

  /** The applications of participants other than `kind`, in order. */
  function Excluding(apps: seq<Application>, kind: string): (r: seq<Application>)
    ensures |r| <= |apps|
    ensures forall a :: a in r <==> a in apps && a.participant != kind
  {
    Filter(apps, (a: Application) => a.participant != kind)
  }

  /** Each application of another kind is kept as often as it occurs, every one of kind `kind` not at all. */
  lemma ExcludingCounts(apps: seq<Application>, kind: string)
    ensures forall a :: multiset(Excluding(apps, kind))[a] == if a.participant != kind then multiset(apps)[a] else 0
  {
    FilterCounts(apps, (a: Application) => a.participant != kind);
  }

  /** The number of applications of participants of kind `kind`. */
  function CountParticipants(apps: seq<Application>, kind: string): (n: nat)
    ensures n <= |apps|
    ensures n == 0 <==> forall i :: 0 <= i < |apps| ==> apps[i].participant != kind
    ensures n == |apps| <==> forall i :: 0 <= i < |apps| ==> apps[i].participant == kind
    decreases |apps|
  {
    if apps == [] then 0 else (if apps[0].participant == kind then 1 else 0) + CountParticipants(apps[1..], kind)
  }

  /** Leaving out one kind of participant leaves out exactly those applications. */
  lemma {:induction false} ExcludingPartition(apps: seq<Application>, kind: string)
    ensures |Excluding(apps, kind)| + CountParticipants(apps, kind) == |apps|
    decreases |apps|
  {
    if apps != [] {
      ExcludingPartition(apps[1..], kind);
    }
  }

  function StatusOf(a: Application): string { a.status }
  function GenderOf(a: Application): string { a.gender }
  function ClassOf(a: Application): string { a.classStatus }
  function DegreeOf(a: Application): string { a.degree }
  function HearaboutOf(a: Application): string { a.hearabout }
  function AttendanceTypeOf(a: Application): string { a.attendanceType }
  function FirstTimerOf(a: Application): bool { a.firstTimer }
  function ShirtOf(a: Application): string { a.tshirtSize }
  function DietOf(a: Application): string { a.diet }

  /** One field of every application, in order. */
  function Column<T>(apps: seq<Application>, f: Application -> T): seq<T>
  {
    Map(apps, f)
  }

  /** A counted group with the display name of its code. */
  datatype Named = Named(name: string, group: Group<string>)

  function Unnamed(ns: seq<Named>): (gs: seq<Group<string>>)
    ensures |gs| == |ns| && forall i :: 0 <= i < |ns| ==> gs[i] == ns[i].group
  {
    seq(|ns|, i requires 0 <= i < |ns| => ns[i].group)
  }

  /** Every group of the codes has a name exactly when every code has one. */
  lemma CodesNamed(codes: seq<string>, names: map<string, string>)
    ensures var gs := GroupCount(codes);
      (forall i :: 0 <= i < |gs| ==> gs[i].key in names) <==> (forall k :: k in codes ==> k in names)
  {
    var gs := GroupCount(codes);
    forall i | 0 <= i < |gs| ensures gs[i].key in codes {
      assert Keys(gs)[i] == gs[i].key;
    }
    if forall i :: 0 <= i < |gs| ==> gs[i].key in names {
      forall k | k in codes ensures k in names {
        assert k in Keys(gs);
        var i :| 0 <= i < |gs| && Keys(gs)[i] == k;
      }
    }
  }

  /**
   * Counts the codes and names each group by a strict lookup: there is a
   * result exactly when every code has a name.
   */
  function Labelled(codes: seq<string>, names: map<string, string>): (r: Option<seq<Named>>)
    ensures r.Some? <==> forall k :: k in codes ==> k in names
    ensures r.Some? ==> Unnamed(r.value) == GroupCount(codes)
    ensures r.Some? ==> forall i :: 0 <= i < |r.value| ==> r.value[i].name == names[r.value[i].group.key]
  {
    var gs := GroupCount(codes);
    CodesNamed(codes, names);
    if forall i :: 0 <= i < |gs| ==> gs[i].key in names then
      Some(seq(|gs|, i requires 0 <= i < |gs| => Named(names[gs[i].key], gs[i])))
    else
      None
  }

  /**
   * The shirt size names by a lenient lookup: a code without a name is shown
   * as "Unknown". Two unknown codes give two groups with the same name.
   */
  function ShirtSizes(gs: seq<Group<string>>, table: map<string, string>): (r: seq<Group<string>>)
    ensures |r| == |gs|
    ensures forall i :: 0 <= i < |gs| ==>
              r[i].total == gs[i].total
              && (gs[i].key in table ==> r[i].key == table[gs[i].key])
              && (gs[i].key !in table ==> r[i].key == "Unknown")
  {
    seq(|gs|, i requires 0 <= i < |gs| =>
      Group(if gs[i].key in table then table[gs[i].key] else "Unknown", gs[i].total))
  }

  /** Renaming the groups keeps the count of applications. */
  lemma {:induction false} ShirtSizesTotals(gs: seq<Group<string>>, table: map<string, string>)
    ensures Totals(ShirtSizes(gs, table)) == Totals(gs)
    decreases |gs|
  {
    if gs != [] {
      ShirtSizesTotals(gs[1..], table);
      assert ShirtSizes(gs, table)[1..] == ShirtSizes(gs[1..], table);
    }
  }

  /** The degrees with more than five applications, each once with its count. */
  function Majors(apps: seq<Application>): (r: seq<Group<string>>)
    ensures forall d :: d in Keys(r) <==> multiset(Column(apps, DegreeOf))[d] > 5
    ensures forall g :: g in r ==> g.total == multiset(Column(apps, DegreeOf))[g.key]
    ensures DistinctKeys(r)
  {
    CountAbove(Column(apps, DegreeOf), 5);
    Above(GroupCount(Column(apps, DegreeOf)), 5)
  }

  /** The non-empty other-diet answers, in order. */
  function OtherDiets(apps: seq<Application>): (r: seq<string>)
    ensures |r| <= |apps|
    decreases |apps|
  {
    if apps == [] then []
    else
      var rest := OtherDiets(apps[1..]);
      if NonEmpty(apps[0].otherDiet) then [apps[0].otherDiet.value] + rest else rest
  }

  /** The other-diet answers kept are exactly the non-empty ones. */
  lemma {:induction false} OtherDietsAnswers(apps: seq<Application>)
    ensures forall s :: s in OtherDiets(apps) <==> s != "" && exists a :: a in apps && a.otherDiet == Some(s)
    decreases |apps|
  {
    if apps != [] {
      OtherDietsAnswers(apps[1..]);
      assert forall a :: a in apps <==> a == apps[0] || a in apps[1..];
    }
  }
  /** The answers keep the order of the applications: one more application adds its answer, if any, at the end. */
  lemma {:induction false} OtherDietsSnoc(apps: seq<Application>, a: Application)
    ensures OtherDiets(apps + [a]) == OtherDiets(apps) + (if NonEmpty(a.otherDiet) then [a.otherDiet.value] else [])
    decreases |apps|
  {
    if apps != [] {
      var all := apps + [a];
      var head := if NonEmpty(apps[0].otherDiet) then [apps[0].otherDiet.value] else [];
      var tail := if NonEmpty(a.otherDiet) then [a.otherDiet.value] else [];
      assert all[0] == apps[0] && all[1..] == apps[1..] + [a];
      calc {
        OtherDiets(all);
        head + OtherDiets(apps[1..] + [a]);
        { OtherDietsSnoc(apps[1..], a); }
        head + (OtherDiets(apps[1..]) + tail);
        (head + OtherDiets(apps[1..])) + tail;
      }
    }
  }


  // ---------------------------------------------------------------------
  // The hardware answers
  // ---------------------------------------------------------------------

  /** The answers that read as "no hardware"; any answer containing one of them is dropped. */
  const ExcludedHardware: seq<string> := ["N/A", "na", "NA", "n/a", "None", "Nothing"]

  function Lower(c: char): char
  {
    if 'A' <= c <= 'Z' then (c as int + 32) as char else c
  }

  function LowerText(s: string): string
  {
    seq(|s|, i requires 0 <= i < |s| => Lower(s[i]))
  }

  /** `t` occurs in `s` starting at position `i`. */
  predicate OccursAt(t: string, s: string, i: int)
  {
    0 <= i && i + |t| <= |s| && s[i..i + |t|] == t
  }

  /** `t` occurs in `s` as a contiguous piece. */
  predicate Occurs(t: string, s: string)
  {
    exists i :: 0 <= i <= |s| && OccursAt(t, s, i)
  }

  predicate ContainsIgnoringCase(s: string, t: string)
  {
    Occurs(LowerText(t), LowerText(s))
  }

  /** A hardware answer is listed when it is present and contains none of the excluded answers. */
  predicate HardwareKept(h: Option<string>)
  {
    h.Some? && forall t :: t in ExcludedHardware ==> !ContainsIgnoringCase(h.value, t)
  }

  /** The six exclusions come down to four, matched against the lower-cased answer. */
  lemma HardwareKeptLowerCase(h: string)
    ensures HardwareKept(Some(h)) <==>
              !Occurs("n/a", LowerText(h)) && !Occurs("na", LowerText(h))
              && !Occurs("none", LowerText(h)) && !Occurs("nothing", LowerText(h))
  {
    var s := LowerText(h);
    assert LowerText("N/A") == "n/a";
    assert LowerText("n/a") == "n/a";
    assert LowerText("na") == "na";
    assert LowerText("NA") == "na";
    assert LowerText("None") == "none";
    assert LowerText("Nothing") == "nothing";
    assert ContainsIgnoringCase(h, "N/A") == Occurs("n/a", s);
    assert ContainsIgnoringCase(h, "n/a") == Occurs("n/a", s);
    assert ContainsIgnoringCase(h, "na") == Occurs("na", s);
    assert ContainsIgnoringCase(h, "NA") == Occurs("na", s);
    assert ContainsIgnoringCase(h, "None") == Occurs("none", s);
    assert ContainsIgnoringCase(h, "Nothing") == Occurs("nothing", s);
  }

  /** A piece cannot occur where its first character never does. */
  lemma NoOccurrenceWithoutFirst(t: string, s: string)
    requires |t| > 0 && forall i :: 0 <= i < |s| ==> s[i] != t[0]
    ensures !Occurs(t, s)
  {
    forall i | 0 <= i <= |s| ensures !OccursAt(t, s, i) {
      if i + |t| <= |s| {
        assert s[i..i + |t|][0] == s[i];
      }
    }
  }

  /** Every exclusion starts with an n, so an answer without an n is always listed. */
  lemma HardwareWithoutN(h: string)
    requires forall i :: 0 <= i < |h| ==> Lower(h[i]) != 'n'
    ensures HardwareKept(Some(h))
  {
    HardwareKeptLowerCase(h);
    var s := LowerText(h);
    NoOccurrenceWithoutFirst("n/a", s);
    NoOccurrenceWithoutFirst("na", s);
    NoOccurrenceWithoutFirst("none", s);
    NoOccurrenceWithoutFirst("nothing", s);
  }

  /** The match is on pieces of the answer: a named board that contains "na" is dropped, an empty answer is kept. */
  lemma HardwareExamples()
    ensures !HardwareKept(Some("Arduino Nano"))
    ensures !HardwareKept(Some("n/a"))
    ensures HardwareKept(Some(""))
    ensures HardwareKept(Some("Oculus Rift"))
    ensures !HardwareKept(None)
  {
    HardwareKeptLowerCase("Arduino Nano");
    assert OccursAt("na", LowerText("Arduino Nano"), 8);
    HardwareKeptLowerCase("n/a");
    assert OccursAt("n/a", LowerText("n/a"), 0);
    HardwareWithoutN("");
    HardwareWithoutN("Oculus Rift");
  }

  /** The listed hardware answers, in order. */
  function ListedHardware(apps: seq<Application>): (r: seq<string>)
    ensures |r| <= |apps|
    decreases |apps|
  {
    if apps == [] then []
    else
      var rest := ListedHardware(apps[1..]);
      if HardwareKept(apps[0].hardware) then [apps[0].hardware.value] + rest else rest
  }

  /** The listed answers are exactly the present hardware answers that contain no excluded piece. */
  lemma {:induction false} ListedHardwareAnswers(apps: seq<Application>)
    ensures forall s :: s in ListedHardware(apps) <==> HardwareKept(Some(s)) && exists a :: a in apps && a.hardware == Some(s)
    decreases |apps|
  {
    if apps != [] {
      ListedHardwareAnswers(apps[1..]);
      assert forall a :: a in apps <==> a == apps[0] || a in apps[1..];
    }
  }
  /** The answers keep the order of the applications: one more application adds its answer, if kept, at the end. */
  lemma {:induction false} ListedHardwareSnoc(apps: seq<Application>, a: Application)
    ensures ListedHardware(apps + [a]) == ListedHardware(apps) + (if HardwareKept(a.hardware) then [a.hardware.value] else [])
    decreases |apps|
  {
    if apps != [] {
      var all := apps + [a];
      assert all[0] == apps[0] && all[1..] == apps[1..] + [a];
      ListedHardwareSnoc(apps[1..], a);
    }
  }


  function TotalLength(parts: seq<string>): nat
    decreases |parts|
  {
    if parts == [] then 0 else |parts[0]| + TotalLength(parts[1..])
  }

  /** The parts one after another with `sep` between neighbours. */
  function Join(parts: seq<string>, sep: string): (r: string)
    ensures |r| == TotalLength(parts) + (if parts == [] then 0 else (|parts| - 1) * |sep|)
    ensures parts != [] ==> r[..|parts[0]|] == parts[0]
    decreases |parts|
  {
    if parts == [] then ""
    else if |parts| == 1 then parts[0]
    else parts[0] + sep + Join(parts[1..], sep)
  }

  /** Joining one more part appends the separator and the part. */
  lemma {:induction false} JoinSnoc(parts: seq<string>, p: string, sep: string)
    requires parts != []
    ensures Join(parts + [p], sep) == Join(parts, sep) + sep + p
    decreases |parts|
  {
    if |parts| == 1 {
      assert (parts + [p])[1..] == [p];
    } else {
      JoinSnoc(parts[1..], p, sep);
      assert (parts + [p])[1..] == parts[1..] + [p];
    }
  }

  // ---------------------------------------------------------------------
  // The application statistics
  // ---------------------------------------------------------------------

  datatype AppReport = AppReport(
    appCount: nat,
    draftAppCount: nat,
    status: seq<Named>,
    shirtCount: seq<Group<string>>,
    shirtCountConfirmed: seq<Group<string>>,
    gender: seq<Named>,
    genderAttended: seq<Named>,
    majorCount: seq<Group<string>>,
    majorCountAttended: seq<Group<string>>,
    classes: seq<Named>,
    classesAttended: seq<Named>,
    hearaboutCount: seq<Group<string>>,
    attendanceTypeCount: seq<Group<string>>,
    firstTimerCount: seq<Group<bool>>,
    firstTimerCountAttended: seq<Group<bool>>,
    diet: seq<Group<string>>,
    dietConfirmed: seq<Group<string>>,
    otherDiet: string,
    hardware: string)

  /** Every code the strict lookups meet has a name. */
  predicate LabelsCover(apps: seq<Application>, codes: Codes, labels: Labels)
  {
    forall a :: a in apps ==>
      && a.status in labels.status
      && a.gender in labels.gender
      && (a.participant != codes.mentor ==> a.classStatus in labels.classStatus)
  }

  /** A column's values all have names exactly when every application's value does. */
  lemma ColumnCovered(apps: seq<Application>, f: Application -> string, names: map<string, string>)
    ensures (forall k :: k in Column(apps, f) ==> k in names) <==> (forall a :: a in apps ==> f(a) in names)
  {
    if forall k :: k in Column(apps, f) ==> k in names {
      forall a | a in apps ensures f(a) in names {
        var i :| 0 <= i < |apps| && apps[i] == a;
        assert Column(apps, f)[i] == f(a);
      }
    }
  }

  /** The coverage condition, column by column; the attended columns are covered along with all. */
  lemma CoverByColumns(apps: seq<Application>, codes: Codes, labels: Labels)
    ensures LabelsCover(apps, codes, labels) <==>
              && (forall k :: k in Column(apps, StatusOf) ==> k in labels.status)
              && (forall k :: k in Column(apps, GenderOf) ==> k in labels.gender)
              && (forall k :: k in Column(Excluding(apps, codes.mentor), ClassOf) ==> k in labels.classStatus)
    ensures LabelsCover(apps, codes, labels) ==>
              && (forall k :: k in Column(WithStatus(apps, codes.attended), GenderOf) ==> k in labels.gender)
              && (forall k :: k in Column(Excluding(WithStatus(apps, codes.attended), codes.mentor), ClassOf) ==>
                    k in labels.classStatus)
  {
    var attended := WithStatus(apps, codes.attended);
    ColumnCovered(apps, StatusOf, labels.status);
    ColumnCovered(apps, GenderOf, labels.gender);
    ColumnCovered(attended, GenderOf, labels.gender);
    ColumnCovered(Excluding(apps, codes.mentor), ClassOf, labels.classStatus);
    ColumnCovered(Excluding(attended, codes.mentor), ClassOf, labels.classStatus);
  }

  /** The five groupings named by strict lookups. */
  datatype NamedCounts = NamedCounts(
    status: seq<Named>,
    gender: seq<Named>,
    genderAttended: seq<Named>,
    classes: seq<Named>,
    classesAttended: seq<Named>)

  /**
   * Status and gender over all applications and over attended ones, class
   * over non-mentors: present exactly when every code met has a name.
   */
  function NameCounts(apps: seq<Application>, codes: Codes, labels: Labels): (r: Option<NamedCounts>)
    ensures r.Some? <==> LabelsCover(apps, codes, labels)
    ensures r.Some? ==>
              var attended := WithStatus(apps, codes.attended);
              && Unnamed(r.value.status) == GroupCount(Column(apps, StatusOf))
              && Unnamed(r.value.gender) == GroupCount(Column(apps, GenderOf))
              && Unnamed(r.value.genderAttended) == GroupCount(Column(attended, GenderOf))
              && Unnamed(r.value.classes) == GroupCount(Column(Excluding(apps, codes.mentor), ClassOf))
              && Unnamed(r.value.classesAttended) == GroupCount(Column(Excluding(attended, codes.mentor), ClassOf))
              && (forall i :: 0 <= i < |r.value.status| ==>
                    r.value.status[i].name == labels.status[r.value.status[i].group.key])
  {
    var attended := WithStatus(apps, codes.attended);
    var nonMentors := Excluding(apps, codes.mentor);
    var attendedNonMentors := Excluding(attended, codes.mentor);
    var status := Labelled(Column(apps, StatusOf), labels.status);
    var gender := Labelled(Column(apps, GenderOf), labels.gender);
    var genderAttended := Labelled(Column(attended, GenderOf), labels.gender);
    var classes := Labelled(Column(nonMentors, ClassOf), labels.classStatus);
    var classesAttended := Labelled(Column(attendedNonMentors, ClassOf), labels.classStatus);
    CoverByColumns(apps, codes, labels);
    if status.Some? && gender.Some? && genderAttended.Some? && classes.Some? && classesAttended.Some? then
      Some(NamedCounts(status.value, gender.value, genderAttended.value, classes.value, classesAttended.value))
    else
      None
  }

  /**
   * The application statistics. There is a report exactly when every status
   * and gender, and every class of a non-mentor, has a display name.
   */
  function AppStatsApi(apps: seq<Application>, draftCount: nat, codes: Codes, labels: Labels): (r: Option<AppReport>)
    ensures r.Some? <==> LabelsCover(apps, codes, labels)
    ensures r.Some? ==> r.value.majorCount == Majors(apps)
                        && r.value.majorCountAttended == Majors(WithStatus(apps, codes.attended))
    ensures r.Some? ==> r.value.otherDiet == Join(OtherDiets(WithStatus(apps, codes.confirmed)), "<br>")
                        && r.value.hardware == Join(ListedHardware(apps), "<br>")
  {
    var named := NameCounts(apps, codes, labels);
    if named.Some? then
      var attended := WithStatus(apps, codes.attended);
      var confirmed := WithStatus(apps, codes.confirmed);
      Some(AppReport(
        |apps|,
        draftCount,
        named.value.status,
        ShirtSizes(GroupCount(Column(apps, ShirtOf)), labels.tshirt),
        ShirtSizes(GroupCount(Column(confirmed, ShirtOf)), labels.tshirt),
        named.value.gender,
        named.value.genderAttended,
        Majors(apps),
        Majors(attended),
        named.value.classes,
        named.value.classesAttended,
        GroupCount(Column(apps, HearaboutOf)),
        GroupCount(Column(apps, AttendanceTypeOf)),
        GroupCount(Column(apps, FirstTimerOf)),
        GroupCount(Column(attended, FirstTimerOf)),
        GroupCount(Column(apps, DietOf)),
        GroupCount(Column(confirmed, DietOf)),
        Join(OtherDiets(confirmed), "<br>"),
        Join(ListedHardware(apps), "<br>")))
    else
      None
  }

  /**
   * The hear-about, attendance-type, first-timer and diet fields count the
   * answers of all applications, of the attended ones (first timers) and of
   * the confirmed ones (diets).
   */
  lemma AppReportGroups(apps: seq<Application>, draftCount: nat, codes: Codes, labels: Labels)
    requires LabelsCover(apps, codes, labels)
    ensures var r := AppStatsApi(apps, draftCount, codes, labels).value;
      var attended := WithStatus(apps, codes.attended);
      var confirmed := WithStatus(apps, codes.confirmed);
      && CountsOf(r.hearaboutCount, Column(apps, HearaboutOf))
      && CountsOf(r.attendanceTypeCount, Column(apps, AttendanceTypeOf))
      && CountsOf(r.firstTimerCount, Column(apps, FirstTimerOf))
      && CountsOf(r.firstTimerCountAttended, Column(attended, FirstTimerOf))
      && CountsOf(r.diet, Column(apps, DietOf))
      && CountsOf(r.dietConfirmed, Column(confirmed, DietOf))
  {
    var attended := WithStatus(apps, codes.attended);
    var confirmed := WithStatus(apps, codes.confirmed);
    GroupCountCounts(Column(apps, HearaboutOf));
    GroupCountCounts(Column(apps, AttendanceTypeOf));
    GroupCountCounts(Column(apps, FirstTimerOf));
    GroupCountCounts(Column(attended, FirstTimerOf));
    GroupCountCounts(Column(apps, DietOf));
    GroupCountCounts(Column(confirmed, DietOf));
  }

  /**
   * The groupings over all applications each add up to the application
   * count; those over attended applications add up to the number attended;
   * the class groupings leave the mentors out.
   */
  lemma AppCountsAddUp(apps: seq<Application>, draftCount: nat, codes: Codes, labels: Labels)
    requires LabelsCover(apps, codes, labels)
    ensures var r := AppStatsApi(apps, draftCount, codes, labels).value;
      var attended := |WithStatus(apps, codes.attended)|;
      var confirmed := |WithStatus(apps, codes.confirmed)|;
      var mentors := CountParticipants(apps, codes.mentor);
      && r.appCount == |apps| && r.draftAppCount == draftCount
      && Totals(Unnamed(r.status)) == |apps|
      && Totals(Unnamed(r.gender)) == |apps|
      && Totals(r.shirtCount) == |apps|
      && Totals(r.hearaboutCount) == |apps|
      && Totals(r.attendanceTypeCount) == |apps|
      && Totals(r.firstTimerCount) == |apps|
      && Totals(r.diet) == |apps|
      && Totals(Unnamed(r.genderAttended)) == attended
      && Totals(r.firstTimerCountAttended) == attended
      && Totals(r.shirtCountConfirmed) == confirmed
      && Totals(r.dietConfirmed) == confirmed
      && Totals(Unnamed(r.classes)) + mentors == |apps|
  {
    ShirtSizesTotals(GroupCount(Column(apps, ShirtOf)), labels.tshirt);
    ShirtSizesTotals(GroupCount(Column(WithStatus(apps, codes.confirmed), ShirtOf)), labels.tshirt);
    ExcludingPartition(apps, codes.mentor);
  }

  /** Each status code present gets one group, named from the table and holding the number of applications with it. */
  lemma StatusCounts(apps: seq<Application>, draftCount: nat, codes: Codes, labels: Labels, code: string)
    requires LabelsCover(apps, codes, labels)
    ensures var r := AppStatsApi(apps, draftCount, codes, labels).value;
      var count := multiset(Column(apps, StatusOf))[code];
      && (count > 0 <==> code in Keys(Unnamed(r.status)))
      && forall i :: 0 <= i < |r.status| && r.status[i].group.key == code ==>
           r.status[i].group.total == count && r.status[i].name == labels.status[code]
  {
    var named := NameCounts(apps, codes, labels).value;
    var gs := Unnamed(named.status);
    forall i | 0 <= i < |named.status| && named.status[i].group.key == code
      ensures named.status[i].group.total == multiset(Column(apps, StatusOf))[code]
    {
      assert gs[i] == named.status[i].group;
    }
  }

  // ---------------------------------------------------------------------
  // The reimbursement statistics
  // ---------------------------------------------------------------------

  datatype Reimbursement = Reimbursement(status: string, reimbursementMoney: int, assignedMoney: int)

  /** The money of one status: the sum granted and the sum assigned. */
  datatype Amount = Amount(name: string, status: string, finalAmount: int, maxAmount: int)

  datatype ReimbReport = ReimbReport(
    reimbCount: nat,
    needed: nat,
    noReimbursement: int,
    status: seq<Named>,
    amounts: seq<Amount>)

  /** The reimbursements that are not drafts, in order. */
  function NonDrafts(rs: seq<Reimbursement>, draft: string): (r: seq<Reimbursement>)
    ensures forall x :: x in r <==> x in rs && x.status != draft
  {
    Filter(rs, (x: Reimbursement) => x.status != draft)
  }

  /** Each reimbursement that is not a draft is kept as often as it occurs, every draft not at all. */
  lemma NonDraftsCounts(rs: seq<Reimbursement>, draft: string)
    ensures forall x :: multiset(NonDrafts(rs, draft))[x] == if x.status != draft then multiset(rs)[x] else 0
  {
    FilterCounts(rs, (x: Reimbursement) => x.status != draft);
  }

  function ReimbStatuses(rs: seq<Reimbursement>): (r: seq<string>)
    ensures |r| == |rs| && forall i :: 0 <= i < |rs| ==> r[i] == rs[i].status
  {
    Map(rs, (x: Reimbursement) => x.status)
  }

  function MoneyRows(rs: seq<Reimbursement>): (rows: seq<(string, int)>)
    ensures RowKeys(rows) == ReimbStatuses(rs)
  {
    var rows := seq(|rs|, i requires 0 <= i < |rs| => (rs[i].status, rs[i].reimbursementMoney));
    assert RowKeys(rows) == ReimbStatuses(rs);
    rows
  }

  function AssignedRows(rs: seq<Reimbursement>): (rows: seq<(string, int)>)
    ensures RowKeys(rows) == ReimbStatuses(rs)
  {
    var rows := seq(|rs|, i requires 0 <= i < |rs| => (rs[i].status, rs[i].assignedMoney));
    assert RowKeys(rows) == ReimbStatuses(rs);
    rows
  }

  function AmountStatuses(amounts: seq<Amount>): (r: seq<string>)
    ensures |r| == |amounts| && forall i :: 0 <= i < |amounts| ==> r[i] == amounts[i].status
  {
    Map(amounts, (x: Amount) => x.status)
  }

  /**
   * The money per status of the reimbursements that are not drafts: both
   * sums come from one grouping by status, so they line up.
   */
  function Amounts(rs: seq<Reimbursement>, draft: string, names: map<string, string>): (r: Option<seq<Amount>>)
    ensures var kept := NonDrafts(rs, draft);
      && (r.Some? <==> forall s :: s in ReimbStatuses(kept) ==> s in names)
      && (r.Some? ==>
            && (forall s :: s in AmountStatuses(r.value) <==> s in ReimbStatuses(kept))
            && forall i :: 0 <= i < |r.value| ==>
                 && r.value[i].name == names[r.value[i].status]
                 && r.value[i].finalAmount == SumFor(MoneyRows(kept), r.value[i].status)
                 && r.value[i].maxAmount == SumFor(AssignedRows(kept), r.value[i].status))
  {
    var kept := NonDrafts(rs, draft);
    var finals := GroupSum(MoneyRows(kept));
    var maxes := GroupSum(AssignedRows(kept));
    GroupSumKeys(MoneyRows(kept), AssignedRows(kept));
    assert forall i :: 0 <= i < |finals| ==> finals[i].key == Keys(finals)[i] == Keys(maxes)[i] == maxes[i].key;
    if forall s :: s in Keys(finals) ==> s in names then
      var amounts := seq(|finals|, i requires 0 <= i < |finals| =>
        Amount(names[finals[i].key], finals[i].key, finals[i].total, maxes[i].total));
      assert AmountStatuses(amounts) == Keys(finals);
      Some(amounts)
    else
      None
  }

  /** Each status has one row: the amounts come from one grouping by status. */
  lemma AmountsOnePerStatus(rs: seq<Reimbursement>, draft: string, names: map<string, string>)
    ensures var r := Amounts(rs, draft, names);
      r.Some? ==> forall i, j :: 0 <= i < j < |r.value| ==> r.value[i].status != r.value[j].status
  {
    var r := Amounts(rs, draft, names);
    if r.Some? {
      var finals := GroupSum(MoneyRows(NonDrafts(rs, draft)));
      assert |r.value| == |finals| && forall i :: 0 <= i < |r.value| ==> r.value[i].status == finals[i].key;
    }
  }

  /** A reimbursement that is not a draft has a status the draft filter keeps. */
  lemma NonDraftStatuses(rs: seq<Reimbursement>, draft: string)
    ensures forall s :: s in ReimbStatuses(NonDrafts(rs, draft)) ==> s in ReimbStatuses(rs) && s != draft
  {
    var kept := NonDrafts(rs, draft);
    forall s | s in ReimbStatuses(kept) ensures s in ReimbStatuses(rs) && s != draft {
      var i :| 0 <= i < |kept| && ReimbStatuses(kept)[i] == s;
      assert kept[i] in rs;
      var j :| 0 <= j < |rs| && rs[j] == kept[i];
      assert ReimbStatuses(rs)[j] == s;
    }
  }
  /** One more reimbursement adds one row at the end of each money column. */
  lemma RowsSnoc(rs: seq<Reimbursement>, x: Reimbursement)
    ensures MoneyRows(rs + [x]) == MoneyRows(rs) + [(x.status, x.reimbursementMoney)]
    ensures AssignedRows(rs + [x]) == AssignedRows(rs) + [(x.status, x.assignedMoney)]
  {
  }

  /** Leaving out the drafts changes no other status's sum of money paid. */
  lemma {:induction false} NonDraftMoney(rs: seq<Reimbursement>, draft: string, st: string)
    requires st != draft
    ensures SumFor(MoneyRows(NonDrafts(rs, draft)), st) == SumFor(MoneyRows(rs), st)
    decreases |rs|
  {
    if rs != [] {
      var init, x := rs[..|rs| - 1], rs[|rs| - 1];
      var row := (x.status, x.reimbursementMoney);
      var kept := NonDrafts(init, draft);
      assert rs == init + [x];
      FilterSnoc(init, x, (y: Reimbursement) => y.status != draft);
      RowsSnoc(init, x);
      calc {
        SumFor(MoneyRows(rs), st);
        { SumForSnoc(MoneyRows(init), row, st); }
        SumFor(MoneyRows(init), st) + (if x.status == st then x.reimbursementMoney else 0);
        { NonDraftMoney(init, draft, st); }
        SumFor(MoneyRows(kept), st) + (if x.status == st then x.reimbursementMoney else 0);
      }
      if x.status != draft {
        assert NonDrafts(rs, draft) == kept + [x];
        RowsSnoc(kept, x);
        SumForSnoc(MoneyRows(kept), row, st);
        assert SumFor(MoneyRows(kept + [x]), st) == SumFor(MoneyRows(kept), st) + (if x.status == st then x.reimbursementMoney else 0);
      } else {
        assert NonDrafts(rs, draft) == kept + [];
        assert NonDrafts(rs, draft) == kept && x.status != st;
      }
    }
  }

  /** Leaving out the drafts changes no other status's sum of money assigned. */
  lemma {:induction false} NonDraftAssigned(rs: seq<Reimbursement>, draft: string, st: string)
    requires st != draft
    ensures SumFor(AssignedRows(NonDrafts(rs, draft)), st) == SumFor(AssignedRows(rs), st)
    decreases |rs|
  {
    if rs != [] {
      var init, x := rs[..|rs| - 1], rs[|rs| - 1];
      var row := (x.status, x.assignedMoney);
      var kept := NonDrafts(init, draft);
      assert rs == init + [x];
      FilterSnoc(init, x, (y: Reimbursement) => y.status != draft);
      RowsSnoc(init, x);
      calc {
        SumFor(AssignedRows(rs), st);
        { SumForSnoc(AssignedRows(init), row, st); }
        SumFor(AssignedRows(init), st) + (if x.status == st then x.assignedMoney else 0);
        { NonDraftAssigned(init, draft, st); }
        SumFor(AssignedRows(kept), st) + (if x.status == st then x.assignedMoney else 0);
      }
      if x.status != draft {
        assert NonDrafts(rs, draft) == kept + [x];
        RowsSnoc(kept, x);
        SumForSnoc(AssignedRows(kept), row, st);
        assert SumFor(AssignedRows(kept + [x]), st) == SumFor(AssignedRows(kept), st) + (if x.status == st then x.assignedMoney else 0);
      } else {
        assert NonDrafts(rs, draft) == kept + [];
        assert NonDrafts(rs, draft) == kept && x.status != st;
      }
    }
  }

  /**
   * Each amount is for a status other than the draft one, and is that
   * status's total over all the reimbursements, drafts included.
   */
  lemma AmountsOverAll(rs: seq<Reimbursement>, draft: string, names: map<string, string>)
    ensures var r := Amounts(rs, draft, names);
      r.Some? ==> forall i :: 0 <= i < |r.value| ==>
        && r.value[i].status != draft
        && r.value[i].finalAmount == SumFor(MoneyRows(rs), r.value[i].status)
        && r.value[i].maxAmount == SumFor(AssignedRows(rs), r.value[i].status)
  {
    var r := Amounts(rs, draft, names);
    if r.Some? {
      NonDraftStatuses(rs, draft);
      forall i | 0 <= i < |r.value|
        ensures && r.value[i].status != draft
                && r.value[i].finalAmount == SumFor(MoneyRows(rs), r.value[i].status)
                && r.value[i].maxAmount == SumFor(AssignedRows(rs), r.value[i].status)
      {
        assert AmountStatuses(r.value)[i] == r.value[i].status;
        assert r.value[i].status in ReimbStatuses(NonDrafts(rs, draft));
        NonDraftMoney(rs, draft, r.value[i].status);
        NonDraftAssigned(rs, draft, r.value[i].status);
      }
    }
  }


  /**
   * The reimbursement statistics over `totalApps` applications. There is a
   * report exactly when every status has a display name; no amount is for
   * the draft status.
   */
  function ReimbStatsApi(rs: seq<Reimbursement>, totalApps: nat, draft: string, names: map<string, string>)
    : (r: Option<ReimbReport>)
    ensures r.Some? <==> forall s :: s in ReimbStatuses(rs) ==> s in names
    ensures r.Some? ==>
              && r.value.reimbCount == r.value.needed == |rs|
              && r.value.needed + r.value.noReimbursement == totalApps
              && Totals(Unnamed(r.value.status)) == |rs|
              && (forall i :: 0 <= i < |r.value.amounts| ==> r.value.amounts[i].status != draft)
    ensures r.Some? ==> Amounts(rs, draft, names).Some? && r.value.amounts == Amounts(rs, draft, names).value
  {
    var status := Labelled(ReimbStatuses(rs), names);
    var amounts := Amounts(rs, draft, names);
    NonDraftStatuses(rs, draft);
    if status.Some? && amounts.Some? then
      assert forall i :: 0 <= i < |amounts.value| ==> amounts.value[i].status in AmountStatuses(amounts.value);
      Some(ReimbReport(|rs|, |rs|, totalApps - |rs|, status.value, amounts.value))
    else
      None
  }

  // ---------------------------------------------------------------------
  // The workshop statistics
  // ---------------------------------------------------------------------

  datatype WorkshopAttendance = WorkshopAttendance(title: string, attendance: nat)

  /** The number of attendances logged for workshop `w`. */
  function AttendanceOf(att: seq<WorkshopsViews.Attendance>, w: nat): (n: nat)
    ensures n <= |att|
    ensures n == 0 <==> forall i :: 0 <= i < |att| ==> att[i].workshop != w
    decreases |att|
  {
    if att == [] then 0
    else AttendanceOf(att[..|att| - 1], w) + (if att[|att| - 1].workshop == w then 1 else 0)
  }

  /** Every workshop's title with the number of hackers logged for it. */
  function WorkshopStatsApi(ws: seq<WorkshopsViews.Workshop>, att: seq<WorkshopsViews.Attendance>)
    : (r: seq<WorkshopAttendance>)
    ensures |r| == |ws|
    ensures forall i :: 0 <= i < |ws| ==> r[i].title == ws[i].title && r[i].attendance == AttendanceOf(att, ws[i].id)
  {
    seq(|ws|, i requires 0 <= i < |ws| => WorkshopAttendance(ws[i].title, AttendanceOf(att, ws[i].id)))
  }

  function SumAttendance(r: seq<WorkshopAttendance>): nat
    decreases |r|
  {
    if r == [] then 0 else r[0].attendance + SumAttendance(r[1..])
  }

  /** How many workshops have id `w`. */
  function Hits(ws: seq<WorkshopsViews.Workshop>, w: nat): nat
    decreases |ws|
  {
    if ws == [] then 0 else (if ws[0].id == w then 1 else 0) + Hits(ws[1..], w)
  }

  lemma {:induction false} HitsOfDistinct(ws: seq<WorkshopsViews.Workshop>, w: nat)
    requires forall i, j :: 0 <= i < j < |ws| ==> ws[i].id != ws[j].id
    ensures Hits(ws, w) == if exists i :: 0 <= i < |ws| && ws[i].id == w then 1 else 0
    decreases |ws|
  {
    if ws != [] {
      HitsOfDistinct(ws[1..], w);
      if exists i :: 0 <= i < |ws[1..]| && ws[1..][i].id == w {
        var i :| 0 <= i < |ws[1..]| && ws[1..][i].id == w;
        assert ws[i + 1].id == w;
      }
      if exists i :: 0 <= i < |ws| && ws[i].id == w {
        var i :| 0 <= i < |ws| && ws[i].id == w;
        if i > 0 {
          assert ws[1..][i - 1].id == w;
        }
      }
    }
  }

  /** Logging one more attendance adds one to each workshop with its id. */
  lemma {:induction false} SumAttendanceSnoc(ws: seq<WorkshopsViews.Workshop>, att: seq<WorkshopsViews.Attendance>, a: WorkshopsViews.Attendance)
    ensures SumAttendance(WorkshopStatsApi(ws, att + [a])) == SumAttendance(WorkshopStatsApi(ws, att)) + Hits(ws, a.workshop)
    decreases |ws|
  {
    if ws != [] {
      SumAttendanceSnoc(ws[1..], att, a);
      assert WorkshopStatsApi(ws, att + [a])[1..] == WorkshopStatsApi(ws[1..], att + [a]);
      assert WorkshopStatsApi(ws, att)[1..] == WorkshopStatsApi(ws[1..], att);
      assert (att + [a])[..|att + [a]| - 1] == att;
    }
  }

  /**
   * With distinct workshop ids and every attendance referring to a listed
   * workshop, the attendance column adds up to the number of attendances.
   */
  lemma {:induction false} WorkshopAttendanceAddsUp(ws: seq<WorkshopsViews.Workshop>, att: seq<WorkshopsViews.Attendance>)
    requires forall i, j :: 0 <= i < j < |ws| ==> ws[i].id != ws[j].id
    requires forall k :: 0 <= k < |att| ==> exists i :: 0 <= i < |ws| && ws[i].id == att[k].workshop
    ensures SumAttendance(WorkshopStatsApi(ws, att)) == |att|
    decreases |att|
  {
    if att == [] {
      EmptyAttendance(ws);
    } else {
      var n := |att| - 1;
      assert att == att[..n] + [att[n]];
      WorkshopAttendanceAddsUp(ws, att[..n]);
      SumAttendanceSnoc(ws, att[..n], att[n]);
      HitsOfDistinct(ws, att[n].workshop);
    }
  }

  lemma {:induction false} EmptyAttendance(ws: seq<WorkshopsViews.Workshop>)
    ensures SumAttendance(WorkshopStatsApi(ws, [])) == 0
    decreases |ws|
  {
    if ws != [] {
      EmptyAttendance(ws[1..]);
      assert WorkshopStatsApi(ws, [])[1..] == WorkshopStatsApi(ws[1..], []);
    }
  }
}
