# Hackathon management: baggage, statistics, workshops, dashboard

A Dafny model of the core of a Django hackathon management site: the
baggage check-in service, the organizers' statistics endpoints, workshop
scheduling and attendance, two admin dashboard modules, and the format of
an applicant's phone number.

- `common.dfy` (`Common`): optional values, user ids, digits, and the
  `.values_list(...)`, `.filter(...)` and `.filter(...).first()` of a list.
- `baggage_models.dfy` (`BaggageModels`): rooms, bags, the stored status
  codes, and the label a bag's position is shown with.
- `baggage_views.dfy` (`BaggageViews`): the bag table as a class. It covers
  check-in along the manual path or the allocator's path, check-out, and the
  lists of stored bags.
- `grouping.dfy` (`Grouping`): the `values(field).annotate(Count/Sum)`
  grouping. There is one group per distinct key, holding that key's count or
  sum.
- `stats_views.dfy` (`StatsViews`): the application, reimbursement and
  workshop statistics.
- `workshops_views.dfy` (`WorkshopsViews`): timeslots with two workshop
  places each, as a class. It covers adding a workshop, moving it on update,
  and logging attendance by QR code.
- `dashboard_modules.dfy` (`DashboardModules`): the best reviewers module and
  the application stats module as classes, with their settings round trip.
- `phone_number.dfy` (`PhoneNumber`): the phone number field's checks.

Some things are passed in as parameters: the position allocator, the
application and reimbursement status codes, their display-name tables, the
users' vote counts and the hackers' check-in records. Their definitions are
not part of this model (see "Left out").

## Model

| member | source | states |
|---|---|---|
| BaggageModels.Decimal | baggage/models.py:77-78 | a column is shown as a non-empty run of decimal digits that starts with '0' only for the column 0, which is shown as "0" |
| BaggageModels.ParseDecimalOfDecimal | baggage/models.py:75-78 | reading back the decimal text of a column gives the column |
| BaggageModels.LeadingDigitPositive | baggage/views.py:143 | digits that do not start with '0' read to a positive number |
| BaggageModels.DecimalOfParseDecimal | baggage/views.py:143 | a manual column of digits without leading zeros reads to the number whose decimal text it is, so it is shown back as typed |
| BaggageModels.Position | baggage/models.py:75-78 | a special bag shows as '@' followed by its column; any other bag shows its row followed by its column; the column part reads back to the column and has no leading zero: column 0 shows as '@0' or the row followed by '0' |
| BaggageModels.StatusCode | baggage/models.py:33-39 | each status is stored as a one-letter code that reads back to that status |
| BaggageModels.StatusFromCode | baggage/models.py:33-39 | only 'A' and 'R' are status codes |
| BaggageViews.FindRoom | baggage/views.py:141 | a room name resolves exactly when a room with that primary key exists |
| BaggageViews.CountAt | baggage/views.py:133 | the count of stored bags at a position is zero exactly when no stored bag holds it |
| BaggageViews.TakesManualPath | baggage/views.py:131 | the manual position is used exactly when 'manual' is asked for, the bag is not special, and room, row and column are all given |
| BaggageViews.Resolved | baggage/views.py:130-138 | on the manual path the position is the request's room, row and numeric column (nothing when the column is not a number); otherwise, and always for a special bag, it is the allocator's answer for the bag's special flag |
| BaggageViews.NewBag | baggage/views.py:109-115 | the new bag is stored, not checked out, with the given id, owner and check-in user; its room is found by name, or is absent when no room has that name; row, column and special flag come from the position and request; type, colour and description are the request's |
| BaggageViews.StoreOnFreeSlot | baggage/views.py:131-144 | storing a bag at a position no stored bag holds keeps positions exclusive |
| BaggageViews.IndexOfBag | baggage/views.py:180 | finds the first bag with the id, or reports that none has it |
| BaggageViews.CheckedOut | baggage/views.py:181-182 | a checked-out bag is marked removed with `outby` the user, and nothing else about it changes |
| BaggageViews.CheckOutKeepsExclusive | baggage/views.py:181-183 | marking a bag removed keeps stored positions exclusive |
| BaggageViews.ActiveBags | baggage/views.py:47-52 | the list holds exactly the stored bags, restricted to one owner when one is given |
| BaggageViews.CheckInJoinsActiveList | baggage/views.py:64-67 | a checked-in bag is appended to every stored-bag list it belongs in |
| BaggageViews.CheckOutLeavesActiveList | baggage/views.py:231-233 | checking out a listed bag shortens the list by one; checking out any other bag leaves the length unchanged |
| BaggageViews.AppendKeepsWellFormed | baggage/views.py:140-144 | storing a new bag under the next id keeps ids increasing, every bag within its column widths and `outby` set exactly on removed bags |
| BaggageViews.CheckOutKeepsWellFormed | baggage/views.py:181-183 | a check-out keeps the table well formed: the removed bag gets its `outby` |
| BaggageViews.BagStore.constructor | baggage/models.py:31-70 | an empty bag table over the given rooms |
| BaggageViews.BagStore.Add | baggage/views.py:101-153 | an occupied manual position is refused; a non-numeric manual column fails; allocator tag 0 stores nothing; a missing owner or an over-wide value fails at save; otherwise the bag is appended under the next id; exclusive positions are kept when the position was free |
| BaggageViews.BagStore.CheckOut | baggage/views.py:178-187 | the first bag with the id is marked removed and `outby` is set, with no check that it was still stored; an unknown id changes nothing; exclusivity is kept |
| Grouping.BumpKeys | stats/views.py:57-58 | adding a row keeps the group keys distinct; a new key is appended at the end |
| Grouping.BumpTotals | stats/views.py:57-58 | adding a row adds its amount to its key's group and to the grand total |
| Grouping.GroupSum | stats/views.py:39-40 | one group per distinct key; each group holds the sum of its key's rows; the groups add up to the total of all rows |
| Grouping.GroupSumKeys | stats/views.py:39-40 | two sums grouped over the same rows have the same keys in the same order |
| Grouping.CountOnes | stats/views.py:57-58 | counting rows of one is the number of occurrences of the key |
| Grouping.GroupCount | stats/views.py:57-58 | one group per distinct value; each group holds the number of occurrences of its value; the groups add up to the number of records |
| Grouping.Above | stats/views.py:80 | keeps exactly the groups whose count is above the cut-off |
| Grouping.AboveDistinct | stats/views.py:80 | dropping groups keeps the remaining keys distinct |
| Grouping.CountAbove | stats/views.py:78-80 | counting and cutting at n lists each key counted more than n times once, with its count, and no other key |
| Common.Map | stats/views.py:39 | one value per record, in order: the value the function gives for that record |
| Common.Filter | stats/views.py:65 | keeps exactly the elements satisfying the condition, and no more elements than there were |
| Common.FilterCounts | stats/views.py:65 | each element satisfying the condition is kept as often as it occurs, every other element not at all |
| Common.FilterSnoc | stats/views.py:65 | filtering keeps the order: one more element at the end is kept, or not, at the end |
| Common.FirstIndex | baggage/views.py:180 | finds the first element satisfying the condition, or reports that none does |
| StatsViews.WithStatus | stats/views.py:65 | keeps exactly the applications with the given status |
| StatsViews.WithStatusCounts | stats/views.py:65 | each application with the status is kept as often as it occurs, every other one not at all |
| StatsViews.Excluding | stats/views.py:69 | keeps exactly the applications whose participant type is not the given one |
| StatsViews.ExcludingCounts | stats/views.py:69 | each application of another participant type is kept as often as it occurs, every one of the given type not at all |
| StatsViews.CountParticipants | stats/views.py:69-74 | the mentor count is at most the number of applications; it is zero exactly when no application is a mentor's, and all of them exactly when every one is |
| StatsViews.ExcludingPartition | stats/views.py:69-71 | the applications left after excluding mentors, plus the mentors, make up all applications |
| StatsViews.CodesNamed | stats/views.py:59 | every counted code has a name exactly when every code met does |
| StatsViews.Labelled | stats/views.py:59 | a strict name lookup succeeds exactly when every code has a name; it keeps the counts and names each group from the table |
| StatsViews.ShirtSizes | stats/views.py:100-110 | a shirt code without a name is shown as 'Unknown'; a code with one shows that name; counts are kept |
| StatsViews.ShirtSizesTotals | stats/views.py:101-104 | renaming the shirt sizes keeps the total number of applications |
| StatsViews.Majors | stats/views.py:78-80 | a degree is listed exactly when more than five applications have it, once, together with their number |
| StatsViews.OtherDiets | stats/views.py:116 | at most one other-diet answer per application |
| StatsViews.OtherDietsAnswers | stats/views.py:116 | the other-diet answers kept are exactly the non-empty ones |
| StatsViews.OtherDietsSnoc | stats/views.py:116 | the answers keep the applications' order and repeats: one more application adds its answer, when non-empty, at the end |
| StatsViews.HardwareKeptLowerCase | stats/views.py:118-121 | the six case-insensitive exclusions come down to four lower-case pieces |
| StatsViews.NoOccurrenceWithoutFirst | stats/views.py:118-121 | a piece cannot occur in a text that never contains its first character |
| StatsViews.HardwareWithoutN | stats/views.py:118-121 | a hardware answer without the letter n is always listed |
| StatsViews.HardwareExamples | stats/views.py:118-121 | "Arduino Nano" and "n/a" are dropped; an empty answer and "Oculus Rift" are listed; a missing answer is not |
| StatsViews.HardwareKept | stats/views.py:118-121 | an answer is listed when present and it contains none of the six excluded pieces, ignoring case |
| StatsViews.ListedHardware | stats/views.py:118-121 | at most one hardware answer per application |
| StatsViews.ListedHardwareAnswers | stats/views.py:118-121 | the listed answers are exactly the present hardware answers that contain no excluded piece |
| StatsViews.ListedHardwareSnoc | stats/views.py:118-121 | the listed answers keep the applications' order and repeats: one more application adds its answer, when kept, at the end |
| StatsViews.Join | stats/views.py:146-147 | the joined text is as long as the parts plus one separator between each pair of neighbours, and starts with the first part |
| StatsViews.JoinSnoc | stats/views.py:146-147 | joining one more part appends the separator and that part |
| StatsViews.ColumnCovered | stats/views.py:59 | every value in a column has a name exactly when every application's value does |
| StatsViews.CoverByColumns | stats/views.py:57-76 | the lookups succeed exactly when every status and gender has a name and every non-mentor's class has one; the attended columns are then covered too |
| StatsViews.NameCounts | stats/views.py:57-76 | status and gender over all applications and over attended ones, and class over non-mentors: present exactly when every code met has a name |
| StatsViews.AppStatsApi | stats/views.py:55-149 | the report exists exactly when no lookup fails; the majors are cut at more than five; other diets come from confirmed applications and hardware from all, each joined with '<br>' |
| Grouping.GroupCountCounts | stats/views.py:57-58 | counting gives one group per distinct value that occurs, holding the number of its occurrences |
| StatsViews.AppReportGroups | stats/views.py:87-115 | the hear-about, attendance-type and diet fields count the answers of all applications; the first-timer fields those of all and of attended ones; the confirmed diet field those of confirmed ones |
| StatsViews.AppCountsAddUp | stats/views.py:57-128 | the groupings over all applications add up to the application count; the attended ones add up to the number attended; the confirmed ones to the number confirmed; class counts plus mentors make up all applications |
| StatsViews.StatusCounts | stats/views.py:57-59 | a status gets a group exactly when some application has it; that group counts those applications and carries the status's name |
| StatsViews.NonDrafts | stats/views.py:39 | keeps exactly the reimbursements that are not drafts |
| StatsViews.NonDraftsCounts | stats/views.py:39 | each reimbursement that is not a draft is kept as often as it occurs, every draft not at all |
| StatsViews.NonDraftStatuses | stats/views.py:39 | no status left after excluding drafts is the draft status |
| Grouping.SumForSnoc | stats/views.py:39-40 | one more row adds its amount to the sum of its own key only |
| StatsViews.NonDraftMoney | stats/views.py:39-40 | leaving out the drafts changes no other status's sum of money granted |
| StatsViews.NonDraftAssigned | stats/views.py:39-40 | leaving out the drafts changes no other status's sum of money assigned |
| StatsViews.Amounts | stats/views.py:39-41 | for each non-draft status, in one row: its name, the sum granted and the sum assigned; present exactly when every such status has a name |
| StatsViews.AmountsOnePerStatus | stats/views.py:39-41 | no two amounts are for the same status |
| StatsViews.AmountsOverAll | stats/views.py:39-41 | each amount is for a status other than the draft one, and its two sums are that status's totals over all the reimbursements |
| StatsViews.ReimbStatsApi | stats/views.py:30-51 | the report exists exactly when every status has a name; 'Reimbursement needed' is the reimbursement count and, with 'No reimbursement', adds up to the number of applications; the status counts add up to the reimbursements; the amounts are those of `Amounts`, so none is for drafts |
| StatsViews.WorkshopStatsApi | stats/views.py:153-163 | gives one row per workshop, with its title and the number of attendances logged for it |
| StatsViews.AttendanceOf | stats/views.py:156 | the count is at most the number of attendances, and zero exactly when none is for the workshop |
| StatsViews.HitsOfDistinct | stats/views.py:155-157 | with distinct ids, exactly one workshop matches a listed id |
| StatsViews.SumAttendanceSnoc | stats/views.py:155-157 | logging one attendance adds one to the workshop it names |
| StatsViews.EmptyAttendance | stats/views.py:155-157 | with no attendance every count is zero |
| StatsViews.WorkshopAttendanceAddsUp | stats/views.py:155-157 | when every attendance refers to a listed workshop, the per-workshop counts add up to the number of attendances |
| WorkshopsViews.EmptyCountsPositive | workshops/views.py:26-37 | the sum of empty first places and empty second places is positive exactly when some timeslot has an empty place |
| WorkshopsViews.Fill | workshops/views.py:47-51 | the workshop goes into the first place if it is empty, and the second place keeps what it held; otherwise it goes into the second place, whatever that held, and the first keeps its workshop |
| WorkshopsViews.FillKeepsScheduledOnce | workshops/views.py:47-51 | filling a place with an unscheduled workshop keeps every workshop in at most one place |
| WorkshopsViews.ClearKeepsScheduledOnce | workshops/views.py:73-79 | emptying a place keeps every workshop in at most one place |
| WorkshopsViews.FirstHoldingOne | workshops/views.py:73 | finds the first timeslot holding the workshop in its first place |
| WorkshopsViews.FirstHoldingTwo | workshops/views.py:77 | finds the first timeslot holding the workshop in its second place |
| WorkshopsViews.IndexOfTimeslot | workshops/views.py:81 | finds the first timeslot with the id, or reports that none has it |
| WorkshopsViews.SameIdsSameIndex | workshops/views.py:81 | emptying places does not change where a timeslot id is found |
| WorkshopsViews.Cleared | workshops/views.py:73-79 | nothing happens when no timeslot holds the workshop; otherwise the one place holding it is emptied and every other place keeps what it held, so afterwards the workshop is in no timeslot |
| WorkshopsViews.FillOnlyHolder | workshops/views.py:81-86 | after a workshop that was in no place is put into a timeslot, that timeslot alone holds it |
| WorkshopsViews.ClearedKeepsBoardValid | workshops/views.py:73-79 | taking a workshop out of its place keeps ids ordered, references known and every workshop in at most one place |
| WorkshopsViews.MoveKeepsBoardValid | workshops/views.py:81-87 | saving an edited workshop under its own id and placing it anew keeps the board valid |
| WorkshopsViews.IndexOfWorkshop | workshops/views.py:163 | finds the first workshop with the id, or reports that none has it |
| WorkshopsViews.FindCheckIn | workshops/views.py:169 | finds the first check-in with the QR code, or reports that none has it |
| WorkshopsViews.WorkshopBoard.constructor | workshops/views.py:26-37 | a board of empty timeslots with distinct ids, with no workshops and no attendance |
| WorkshopsViews.WorkshopBoard.IsAvailable | workshops/views.py:26-37 | the add form is offered exactly when some timeslot has an empty place |
| WorkshopsViews.WorkshopBoard.AddWorkshop | workshops/views.py:39-52 | the workshop is saved under a new id and placed by the fill rule; every workshop stays in at most one place |
| WorkshopsViews.WorkshopBoard.UpdateWorkshop | workshops/views.py:70-88 | an unscheduled workshop changes nothing; otherwise its old place is emptied; an unknown timeslot leaves only that emptying; else the workshop is placed by the fill rule and saved, and then only the chosen timeslot holds it |
| WorkshopsViews.WorkshopBoard.CheckIn | workshops/views.py:155-188 | the checks run in order: missing input, unknown workshop, closed to a non-organizer, unknown QR code, no user, already attended; only when all pass is one attendance appended; no attendance is ever logged twice |
| DashboardModules.Voters | app/dashboard_modules.py:29 | keeps exactly the users with at least one vote |
| DashboardModules.VotersCounts | app/dashboard_modules.py:29 | each user with a vote is kept as often as they occur, everybody else not at all |
| DashboardModules.InsertCounts | app/dashboard_modules.py:29 | inserting a reviewer adds exactly that reviewer, and puts it or the old leader first |
| DashboardModules.InsertRanks | app/dashboard_modules.py:29 | inserting a reviewer into a ranking ordered by votes keeps it ordered |
| DashboardModules.Ranked | app/dashboard_modules.py:28-29 | ordered by votes, most first; a permutation of the users with at least one vote |
| DashboardModules.RankedVoters | app/dashboard_modules.py:28-29 | the ranking holds exactly the users with at least one vote |
| DashboardModules.WithVotes | app/dashboard_modules.py:29 | keeps exactly the users with the given number of votes |
| DashboardModules.WithVotesCons | app/dashboard_modules.py:29 | a user in front is kept in front when they have that number of votes, and dropped otherwise |
| DashboardModules.InsertWithVotes | app/dashboard_modules.py:29 | inserting a reviewer puts them before everybody with as many votes and leaves the order of everybody else with any given number of votes unchanged |
| DashboardModules.RankedStable | app/dashboard_modules.py:28-29 | for every positive vote count, the users with that count appear in the ranking in their input order; nobody without a vote appears |
| DashboardModules.PrefixOfRanking | app/dashboard_modules.py:29 | in a ranking, nobody past the first n has more votes than anyone among them |
| DashboardModules.PrefixCounts | app/dashboard_modules.py:29 | the first n of a ranking are a ranking, and hold nobody more often than the whole |
| DashboardModules.TopReviewers | app/dashboard_modules.py:27-29 | shows the smaller of the limit and the number of voters; only users with votes, each at most as often as listed, most first; nobody left out has more votes than anybody shown |
| DashboardModules.BestReviewers.constructor | app/dashboard_modules.py:16 | the limit starts at 10 |
| DashboardModules.BestReviewers.SettingsDict | app/dashboard_modules.py:19-22 | the saved settings hold the limit under 'limit' and nothing else |
| DashboardModules.LimitFromForm | app/dashboard_modules.py:9-10 | the form accepts a limit exactly when it is at least 1, and keeps it as entered |
| DashboardModules.BestReviewers.LoadSettings | app/dashboard_modules.py:24-25 | the saved limit is taken when present; otherwise the current one is kept; a saved limit is one the form accepted, so the limit stays at least 1 |
| DashboardModules.BestReviewers.SubmitForm | app/dashboard_modules.py:9-25 | a submitted limit is saved and loaded exactly when the form accepts it (at least 1); otherwise the limit is unchanged; the limit stays at least 1 and the children are untouched |
| DashboardModules.BestReviewers.InitWithContext | app/dashboard_modules.py:27-29 | the children are the top reviewers for the current limit |
| DashboardModules.RestoreReviewers | app/dashboard_modules.py:19-25 | a new module loaded with another's saved settings has that module's limit |
| DashboardModules.Selected | app/dashboard_modules.py:52-55 | '__all__' selects every application; any other status selects exactly the applications with it, each as often as it occurs |
| DashboardModules.AppsStats.constructor | app/dashboard_modules.py:40 | the status starts at '__all__' |
| DashboardModules.AppsStats.SettingsDict | app/dashboard_modules.py:43-46 | the saved settings hold the status under 'status' and nothing else |
| DashboardModules.StatusFromForm | app/dashboard_modules.py:32-34 | the form accepts exactly a status code or '__all__', and keeps it as chosen |
| DashboardModules.AppsStats.LoadSettings | app/dashboard_modules.py:48-49 | the saved status is taken when present; otherwise the current one is kept |
| DashboardModules.AppsStats.SubmitForm | app/dashboard_modules.py:32-49 | a submitted status is saved and loaded exactly when it is a status code or '__all__'; otherwise the status is unchanged; the counts are untouched |
| DashboardModules.AppsStats.InitWithContext | app/dashboard_modules.py:51-59 | counts shirt sizes and diets over the selected applications; each count adds up to the number selected |
| DashboardModules.RestoreAppsStats | app/dashboard_modules.py:43-49 | a new module loaded with another's saved settings has that module's status |
| PhoneNumber.MatchesPrefixPointwise | applications/migrations/0030_auto_20200602_0200.py:17 | the pattern matches at the start of a text exactly when each of its positions accepts the character there |
| PhoneNumber.IsSpace | applications/migrations/0030_auto_20200602_0200.py:17 | the characters Python's `\s` accepts: the ASCII whitespace, the separators 0x1C-0x1F, and the Unicode spaces |
| PhoneNumber.PatternFound | applications/migrations/0030_auto_20200602_0200.py:17 | the validator's pattern is searched for at the start of the text only |
| PhoneNumber.PhoneErrors | applications/migrations/0030_auto_20200602_0200.py:17 | a blank value reports only that it is blank, and a non-blank one never does; otherwise it reports too long exactly when over 14 characters and wrong format exactly when the pattern is not found at the start, the format error first; there are never more than two errors |
| PhoneNumber.LongMalformedReportsBoth | applications/migrations/0030_auto_20200602_0200.py:17 | a 15-digit number reports the wrong format and then the length |
| PhoneNumber.PatternFoundShaped | applications/migrations/0030_auto_20200602_0200.py:17 | the pattern is found exactly when the text opens with '(', three digits, ')', a whitespace character, three digits, '-' and four digits |
| PhoneNumber.ValidPhoneShape | applications/migrations/0030_auto_20200602_0200.py:17 | a valid phone number is exactly 14 characters of that shape |
| PhoneNumber.DefaultIsValid | applications/migrations/0030_auto_20200602_0200.py:17 | the default '(999) 999-9999' is valid |
| PhoneNumber.LongerNumberFindsPattern | applications/migrations/0030_auto_20200602_0200.py:17 | the pattern has no end anchor, so a 15-character number passes it; only the length check refuses it |
| PhoneNumber.TabSeparatorIsValid | applications/migrations/0030_auto_20200602_0200.py:17 | a tab is accepted as the separator after the area code |
| PhoneNumber.DashedNumberIsRefused | applications/migrations/0030_auto_20200602_0200.py:17 | '706-542-3123' is refused as wrongly formatted |

## Left out

- The position allocator `baggage/utils.get_position` is not part of this model. Its answer for the bag's `special` flag is a function parameter, and no scan order is assumed.
- Bag images: decoding and storing them, and the bare `except` around that, do not change the outcome.
- Slack messages, flash messages, redirects, template contexts, permission mixins and `update_time` timestamps are output only and have no effect on state.
- The `timeseries` of submissions per day is not modelled, because it groups by a date truncated from a timestamp.
- Caching of the statistics responses is not modelled.
- Ordering: the grouped queries carry no `order_by`, so the database decides their order; the model lists groups in order of first appearance. The best reviewers have no tie-break beyond vote count; the model's ranking is a stable insertion, so users with as many votes keep their input order (DashboardModules.RankedStable).
- BaggageViews.BagStore.Add: `int()` also accepts signs, spaces and underscores in a manual column, and the model reads only plain digits. A string row or type rejected by the store is modelled as a failed save (PostgreSQL column widths). SQLite, which does not enforce widths, is not modelled.
- BaggageViews.BagStore.Add: the bag type and colour are always present, so a request missing them is not modelled.
- BaggageViews.BagStore.CheckOut: an id that matches no bag raises in the source (an attribute access on None); the model returns `false` and changes nothing. A non-numeric id is not modelled.
- WorkshopsViews.WorkshopBoard.CheckIn: a workshop id that matches no workshop raises in the source; the model returns `UnknownWorkshop` and changes nothing. A non-numeric id is not modelled.
- WorkshopsViews.WorkshopBoard.UpdateWorkshop: a workshop in no timeslot raises before anything is saved (`NotScheduled`). An unknown timeslot raises after the old place was saved (`UnknownTimeslot`). The workshop itself must exist, because the update view answers 404 before the form is handled.
- WorkshopsViews.WorkshopBoard.AddWorkshop: the chosen timeslot must exist, because the form's choice field validates it.
- The application fields are modelled as non-null text, apart from `other_diet` and `hardware`. `Count(field)` skips nulls, and the applications model, which would say which fields are nullable, is not part of this model.
- The status codes (attended, confirmed, mentor, draft) and the display-name tables are parameters, because `applications/models.py` and `reimbursement/models.py` are not part of this model.
- StatsViews.Amounts: a null money amount, which `Sum` skips, is not modelled; amounts are whole numbers.
- StatsViews.HardwareKept: case-insensitive matching folds ASCII letters only; the database's Unicode case folding is not modelled.
- PhoneNumber.PatternFoundShaped: `\d` is modelled as the ASCII digits. Python's `\d` also matches other Unicode decimal digits.
- DashboardModules.BestReviewers.LoadSettings: settings hold whole numbers, and a stored limit is one the settings form accepted (DashboardModules.BestReviewers.SubmitForm is the path that stores it). Arbitrary JSON values are not modelled.
- DashboardModules.BestReviewers.SubmitForm and DashboardModules.AppsStats.SubmitForm: the dashboard view that validates a module's settings form and stores the cleaned values belongs to the dashboard package and is not part of this model; the two methods model it as clean, save, load.
- The users' vote counts are inputs. Counting calculated votes per user is a join over tables that are not part of this model.
