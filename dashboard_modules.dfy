/**
 * The two admin dashboard modules: the best reviewers by number of votes
 * cast, and the shirt size and diet counts of the applications with a chosen
 * status. Each module keeps its settings in fields, saves them as a
 * dictionary and loads them back, keeping the current value for a key the
 * dictionary lacks.
 */
module DashboardModules {
  import opened Common
  import opened Grouping
  import StatsViews

  // ---------------------------------------------------------------------
  // Best reviewers
  // ---------------------------------------------------------------------

  /** A user with the number of votes they have cast. */
  datatype Reviewer = Reviewer(user: UserId, votes: nat)

  const DefaultLimit := 10

  /** The settings form accepts a whole number of at least one. */
  function LimitFromForm(v: int): (r: Option<int>)
    ensures r.Some? <==> v >= 1
    ensures r.Some? ==> r.value == v
  {
    if v >= 1 then Some(v) else None
  }

  predicate SortedByVotes(s: seq<Reviewer>)
  {
    forall i, j :: 0 <= i < j < |s| ==> s[i].votes >= s[j].votes
  }

  /** The reviewers with at least one vote, in order. */
  function Voters(users: seq<Reviewer>): (r: seq<Reviewer>)
    ensures forall x :: x in r <==> x in users && x.votes > 0
  {
    Filter(users, (u: Reviewer) => u.votes > 0)
  }

  /** Each reviewer with a vote is kept as often as they occur, everybody else not at all. */
  lemma VotersCounts(users: seq<Reviewer>)
    ensures forall x :: multiset(Voters(users))[x] == if x.votes > 0 then multiset(users)[x] else 0
  {
    FilterCounts(users, (u: Reviewer) => u.votes > 0);
  }

  /** Puts `x` into a list ranked by votes, before those with as many votes. */
  function Insert(x: Reviewer, s: seq<Reviewer>): seq<Reviewer>
    decreases |s|
  {
    if s == [] then [x]
    else if x.votes >= s[0].votes then [x] + s
    else [s[0]] + Insert(x, s[1..])
  }

  /** The tail of a ranking is a ranking, below its head. */
  lemma SortedTail(s: seq<Reviewer>)
    requires s != [] && SortedByVotes(s)
    ensures SortedByVotes(s[1..])
    ensures forall y :: y in s[1..] ==> y.votes <= s[0].votes
  {
    forall y | y in s[1..] ensures y.votes <= s[0].votes {
      var j :| 0 <= j < |s[1..]| && s[1..][j] == y;
      assert s[j + 1] == y;
    }
  }

  /** Inserting adds exactly one reviewer, `x`, and puts either `x` or the old head first. */
  lemma {:induction false} InsertCounts(x: Reviewer, s: seq<Reviewer>)
    ensures multiset(Insert(x, s)) == multiset(s) + multiset{x}
    ensures |Insert(x, s)| == |s| + 1
    ensures Insert(x, s)[0] == x || (s != [] && Insert(x, s)[0] == s[0])
    decreases |s|
  {
    if s != [] && x.votes < s[0].votes {
      InsertCounts(x, s[1..]);
      assert s == [s[0]] + s[1..];
    }
  }

  /** A reviewer with at least the votes of everybody in a ranking can head it. */
  lemma ConsRanks(y: Reviewer, t: seq<Reviewer>)
    requires SortedByVotes(t)
    requires forall z :: z in t ==> z.votes <= y.votes
    ensures SortedByVotes([y] + t)
  {
    var r := [y] + t;
    forall i, j | 0 <= i < j < |r| ensures r[i].votes >= r[j].votes {
      assert r[j] == t[j - 1];
      if i > 0 {
        assert r[i] == t[i - 1];
      } else {
        assert t[j - 1] in t;
      }
    }
  }

  /** Inserting into a ranking gives a ranking. */
  lemma {:induction false} InsertRanks(x: Reviewer, s: seq<Reviewer>)
    requires SortedByVotes(s)
    ensures SortedByVotes(Insert(x, s))
    decreases |s|
  {
    if s != [] {
      SortedTail(s);
      if x.votes >= s[0].votes {
        assert s == [s[0]] + s[1..];
        ConsRanks(x, s);
      } else {
        InsertRanks(x, s[1..]);
        InsertCounts(x, s[1..]);
        var rest := Insert(x, s[1..]);
        forall z | z in rest ensures z.votes <= s[0].votes {
          assert z in multiset(rest);
        }
        ConsRanks(s[0], rest);
      }
    }
  }

  /** The voters ranked by votes, most first. */
  function Ranked(users: seq<Reviewer>): (r: seq<Reviewer>)
    ensures SortedByVotes(r)
    ensures multiset(r) == multiset(Voters(users))
    decreases |users|
  {
    if users == [] then []
    else
      assert users == [users[0]] + users[1..];
      assert Voters(users) == (if users[0].votes > 0 then [users[0]] else []) + Voters(users[1..]);
      if users[0].votes > 0 then
        InsertRanks(users[0], Ranked(users[1..]));
        InsertCounts(users[0], Ranked(users[1..]));
        Insert(users[0], Ranked(users[1..]))
      else Ranked(users[1..])
  }

  /** The ranking holds the voters, each as often as they appear. */
  lemma RankedVoters(users: seq<Reviewer>)
    ensures |Ranked(users)| == |Voters(users)|
    ensures forall x :: x in Ranked(users) <==> x in users && x.votes > 0
  {
    var ranked := Ranked(users);
    assert |ranked| == |multiset(ranked)| == |multiset(Voters(users))| == |Voters(users)|;
    forall x ensures x in ranked <==> x in Voters(users) {
      assert x in ranked <==> x in multiset(ranked);
      assert x in Voters(users) <==> x in multiset(Voters(users));
    }
  }

  /** The reviewers with exactly `v` votes, in order. */
  function WithVotes(s: seq<Reviewer>, v: nat): (r: seq<Reviewer>)
    ensures forall y :: y in r <==> y in s && y.votes == v
  {
    Filter(s, (y: Reviewer) => y.votes == v)
  }

  lemma WithVotesCons(y: Reviewer, t: seq<Reviewer>, v: nat)
    ensures WithVotes([y] + t, v) == (if y.votes == v then [y] else []) + WithVotes(t, v)
  {
    assert ([y] + t)[0] == y && ([y] + t)[1..] == t;
  }

  /**
   * Inserting `x` puts it before every reviewer with as many votes and
   * leaves their order alone.
   */
  lemma {:induction false} InsertWithVotes(x: Reviewer, s: seq<Reviewer>, v: nat)
    ensures WithVotes(Insert(x, s), v) == (if x.votes == v then [x] else []) + WithVotes(s, v)
    decreases |s|
  {
    if s == [] {
      WithVotesCons(x, [], v);
    } else if x.votes >= s[0].votes {
      WithVotesCons(x, s, v);
    } else {
      var t := Insert(x, s[1..]);
      InsertWithVotes(x, s[1..], v);
      WithVotesCons(s[0], t, v);
      WithVotesCons(s[0], s[1..], v);
      assert [s[0]] + s[1..] == s;
      if x.votes == v {
        assert s[0].votes != v;
      }
    }
  }

  /**
   * The ranking is stable: the reviewers with `v` votes appear in it in
   * their input order, and nobody without a vote appears.
   */
  lemma {:induction false} RankedStable(users: seq<Reviewer>, v: nat)
    ensures WithVotes(Ranked(users), v) == if v > 0 then WithVotes(users, v) else []
    decreases |users|
  {
    if users != [] {
      RankedStable(users[1..], v);
      assert WithVotes(users, v) == (if users[0].votes == v then [users[0]] else []) + WithVotes(users[1..], v);
      if users[0].votes > 0 {
        InsertWithVotes(users[0], Ranked(users[1..]), v);
      }
    }
  }

  /** In a ranking, whoever is past the first `n` has no more votes than anyone among them. */
  lemma PrefixOfRanking(s: seq<Reviewer>, n: nat)
    requires SortedByVotes(s) && n <= |s|
    ensures forall x, y :: x in s && x !in s[..n] && y in s[..n] ==> x.votes <= y.votes
  {
    forall x, y | x in s && x !in s[..n] && y in s[..n] ensures x.votes <= y.votes {
      var i :| 0 <= i < |s| && s[i] == x;
      var j :| 0 <= j < n && s[..n][j] == y;
      assert forall k :: 0 <= k < n ==> s[k] in s[..n];
      assert s[j] == y;
    }
  }

  /** The first `n` of a ranking are a ranking, and hold nobody more often than the whole. */
  lemma PrefixCounts(s: seq<Reviewer>, n: nat)
    requires SortedByVotes(s) && n <= |s|
    ensures SortedByVotes(s[..n])
    ensures multiset(s[..n]) <= multiset(s)
    ensures forall y :: y in s[..n] ==> y in s
  {
    assert s == s[..n] + s[n..];
  }

  /**
   * The reviewers the module shows: at most `limit` users with at least one
   * vote, most votes first, and nobody left out has more votes than anybody
   * shown.
   */
  function TopReviewers(users: seq<Reviewer>, limit: nat): (r: seq<Reviewer>)
    ensures |r| == if limit < |Voters(users)| then limit else |Voters(users)|
    ensures multiset(r) <= multiset(Voters(users))
    ensures SortedByVotes(r)
    ensures forall y :: y in r ==> y in users && y.votes > 0
    ensures forall x, y :: x in users && x.votes > 0 && x !in r && y in r ==> x.votes <= y.votes
  {
    var ranked := Ranked(users);
    RankedVoters(users);
    var n := if limit < |ranked| then limit else |ranked|;
    PrefixOfRanking(ranked, n);
    PrefixCounts(ranked, n);
    ranked[..n]
  }

  /** The best reviewers module with its one setting. */
  class BestReviewers {
    var limit: int
    var children: seq<Reviewer>

    ghost predicate Valid()
      reads this
    {
      limit >= 1
    }

    constructor ()
      ensures Valid() && limit == DefaultLimit && children == []
    {
      limit := DefaultLimit;
      children := [];
    }

    /** The settings as saved: the limit under "limit". */
    function SettingsDict(): (d: map<string, int>)
      reads this
      ensures d.Keys == {"limit"} && d["limit"] == limit
    {
      map["limit" := limit]
    }

    /**
     * Takes the saved limit, or keeps the current one when none is saved.
     * Saved settings hold only limits the settings form has accepted.
     */
    method LoadSettings(settings: map<string, int>)
      requires Valid() && ("limit" in settings ==> LimitFromForm(settings["limit"]).Some?)
      modifies this
      ensures Valid() && children == old(children)
      ensures limit == if "limit" in settings then settings["limit"] else old(limit)
    {
      if "limit" in settings {
        limit := settings["limit"];
      }
    }

    /**
     * The settings form submitted with a limit: a limit the form accepts is
     * saved and loaded back; one it refuses leaves the module as it was.
     */
    method SubmitForm(v: int) returns (accepted: bool)
      requires Valid()
      modifies this
      ensures Valid() && children == old(children)
      ensures accepted <==> v >= 1
      ensures limit == if accepted then v else old(limit)
    {
      var cleaned := LimitFromForm(v);
      if cleaned.Some? {
        LoadSettings(map["limit" := cleaned.value]);
        accepted := true;
      } else {
        accepted := false;
      }
    }

    /** Fills the module with the top reviewers for the current limit. */
    method InitWithContext(users: seq<Reviewer>)
      requires Valid()
      modifies this
      ensures Valid() && limit == old(limit)
      ensures children == TopReviewers(users, limit)
    {
      children := TopReviewers(users, limit);
    }
  }

  /** A new module loaded with the saved settings of another has the same limit. */
  method RestoreReviewers(saved: BestReviewers) returns (m: BestReviewers)
    requires saved.Valid()
    ensures fresh(m) && m.Valid() && m.limit == saved.limit && m.children == []
  {
    m := new BestReviewers();
    m.LoadSettings(saved.SettingsDict());
  }

  // ---------------------------------------------------------------------
  // Application stats
  // ---------------------------------------------------------------------

  /** The status choice that selects every application. */
  const AllStatuses := "__all__"

  /** The settings form accepts a status code or the choice for all. */
  function StatusFromForm(v: string, statusCodes: set<string>): (r: Option<string>)
    ensures r.Some? <==> v in statusCodes || v == AllStatuses
    ensures r.Some? ==> r.value == v
  {
    if v in statusCodes || v == AllStatuses then Some(v) else None
  }

  /** The applications the module counts: all of them, or those with the chosen status. */
  function Selected(apps: seq<StatsViews.Application>, status: string): (r: seq<StatsViews.Application>)
    ensures status == AllStatuses ==> r == apps
    ensures status != AllStatuses ==> forall a :: a in r <==> a in apps && a.status == status
    ensures status != AllStatuses ==>
              forall a :: multiset(r)[a] == if a.status == status then multiset(apps)[a] else 0
  {
    StatsViews.WithStatusCounts(apps, status);
    if status != AllStatuses then StatsViews.WithStatus(apps, status) else apps
  }

  /** The application stats module with its one setting. */
  class AppsStats {
    var status: string
    var tshirts: seq<Group<string>>
    var diets: seq<Group<string>>

    constructor ()
      ensures status == AllStatuses && tshirts == [] && diets == []
    {
      status := AllStatuses;
      tshirts := [];
      diets := [];
    }

    /** The settings as saved: the status under "status". */
    function SettingsDict(): (d: map<string, string>)
      reads this
      ensures d.Keys == {"status"} && d["status"] == status
    {
      map["status" := status]
    }

    /** Takes the saved status, or keeps the current one when none is saved. */
    method LoadSettings(settings: map<string, string>)
      modifies this
      ensures tshirts == old(tshirts) && diets == old(diets)
      ensures status == if "status" in settings then settings["status"] else old(status)
    {
      if "status" in settings {
        status := settings["status"];
      }
    }

    /**
     * The settings form submitted with a status: a status code or the choice
     * for all is saved and loaded back; any other value leaves the module as
     * it was.
     */
    method SubmitForm(v: string, statusCodes: set<string>) returns (accepted: bool)
      modifies this
      ensures tshirts == old(tshirts) && diets == old(diets)
      ensures accepted <==> v in statusCodes || v == AllStatuses
      ensures status == if accepted then v else old(status)
    {
      var cleaned := StatusFromForm(v, statusCodes);
      if cleaned.Some? {
        LoadSettings(map["status" := cleaned.value]);
        accepted := true;
      } else {
        accepted := false;
      }
    }

    /**
     * Counts the shirt sizes and the diets of the selected applications;
     * each grouping adds up to the number selected.
     */
    method InitWithContext(apps: seq<StatsViews.Application>)
      modifies this
      ensures status == old(status)
      ensures tshirts == GroupCount(StatsViews.Column(Selected(apps, status), StatsViews.ShirtOf))
      ensures diets == GroupCount(StatsViews.Column(Selected(apps, status), StatsViews.DietOf))
      ensures Totals(tshirts) == Totals(diets) == |Selected(apps, status)|
    {
      var qs := apps;
      if status != AllStatuses {
        qs := StatsViews.WithStatus(qs, status);
      }
      tshirts := GroupCount(StatsViews.Column(qs, StatsViews.ShirtOf));
      diets := GroupCount(StatsViews.Column(qs, StatsViews.DietOf));
    }
  }

  /** A new module loaded with the saved settings of another has the same status. */
  method RestoreAppsStats(saved: AppsStats) returns (m: AppsStats)
    ensures fresh(m) && m.status == saved.status
  {
    m := new AppsStats();
    m.LoadSettings(saved.SettingsDict());
  }
}
