# Drug portfolio tracker — a Dafny model

The system is a portfolio tracker for drug development. It has an Express + SQLite server and an Angular client. The server keeps four tables:

- **programs**: drug candidates, with a phase, a therapeutic area and a status.
- **studies**: clinical trials under a program, with enrollment counts.
- **milestones**: events of a program, optionally tied to one of its studies.
- **users**: accounts with a role.

The server offers:

- paged, filtered and sorted lists of the three portfolio tables;
- create, update and delete with pre-checks;
- a dashboard of aggregates;
- JWT login and role-based access.

The client shows the program list with a page-link window, a dashboard with its entries sorted by count, and a header with the user's initials and role.

The model has one Dafny module per source file, plus five shared modules.

Shared modules:

- `Common`: the Option type, code-point string order, JavaScript `split`, ASCII case mapping, filters, and key lookups.
- `Ordering`: ORDER BY on one text column. NULL sorts first. DESC reverses the order. Ties may come back in any order, so the specification is "a permutation, sorted by the key".
- `Paging`: the page clamp and the `{data,total,page,pageSize,totalPages}` envelope.
- `Grouping`: GROUP BY with ascending distinct keys, counts and sums.
- `Http`: a reply, either a status with a body or a status with an error message.

Modules for the source files:

- `Types`: the records and the enumerated columns.
- `Database`: the schema as a class `Store`. It has four table fields and an invariant `Valid`, which covers the CHECK enums, UNIQUE and primary keys, and foreign keys. Its insert, update and delete methods enforce the constraints and carry out CASCADE and SET NULL.
- `Programs`, `Studies`, `Milestones`: the route handlers. Lists are functions over the tables. Create, update and delete are methods on the `Store` that answer a status.
- `Dashboard`: the aggregate handler.
- `Auth` and `AuthRoutes`: the middlewares, login, `/me` and register.
- `ProgramList`, `DashboardView`, `Layout`: the three client components.

How the model treats the source's conventions:

- **Absent request fields.** A request text field is a `string`, and "" stands for absent. The handlers test fields with `!x` and `x || d`, which treat both alike. Study counts are `Option<int>`, because the study update uses `??`, and there 0 is a value.
- **Ids, timestamps, passwords and tokens.** uuid values and `datetime('now')` are parameters (`id`, `now`). bcrypt and JWT are function parameters: `hash`, `passwordMatches`, `sign` and `verify`.
- **Constraint failures.** A CHECK, UNIQUE or foreign-key failure that the handler does not pre-check throws inside better-sqlite3. Express's default error handler then answers 500. The model answers `Err(500, "Internal Server Error")` and leaves every table unchanged.
- **A duplicate protocol number.** The code has no 409 pre-check for it (server/src/routes/studies.routes.ts:57-72). A duplicate therefore ends in the UNIQUE failure, a 500. The model follows the code.

## Model

| member | source | states |
|---|---|---|
| Common.SplitJoin | server/src/auth.ts:26 | Joining the pieces of `split(' ')` back with the separator gives the original text, so no character is lost or added |
| Common.HasInfixIff | server/src/routes/programs.routes.ts:41-44 | The `LIKE '%term%'` test used by the search holds exactly when the term occurs at some position of the text |
| Types.ParsePhase | server/src/database.ts:35 | The phase CHECK accepts exactly the seven phase names; each name maps back to its phase |
| Types.ParseProgramStatus | server/src/database.ts:36 | The program status CHECK accepts exactly the four status names |
| Types.ParseStudyStatus | server/src/database.ts:54 | The study status CHECK accepts exactly the six status names |
| Types.ParseCategory | server/src/database.ts:73 | The milestone category CHECK accepts exactly the five category names |
| Types.ParseMilestoneStatus | server/src/database.ts:74 | The milestone status CHECK accepts exactly the five status names |
| Types.ParseRole | server/src/database.ts:23 | The role CHECK accepts exactly admin, portfolio_manager and viewer |
| Database.FindProgram | server/src/routes/programs.routes.ts:107-110 | SELECT by id finds nothing exactly when no row has the id; otherwise it finds a row of the table with that id |
| Database.FindStudy | server/src/routes/studies.routes.ts:44-47 | Same lookup for studies |
| Database.FindMilestone | server/src/routes/milestones.routes.ts:57-60 | Same lookup for milestones |
| Database.ProgramDeleteCascades | server/src/database.ts:64-79 | After deleting a program, exactly the studies of other programs remain; every remaining milestone belongs to another program; as many milestones remain as belong to other programs |
| Database.StudyDeleteSetsNull | server/src/database.ts:80 | Deleting a study clears study_id exactly on its milestones and changes nothing else in any milestone |
| Database.ProgramDeleteKeepsConsistent | server/src/database.ts:30-81 | Program delete with its cascades keeps all keys unique and all foreign keys valid |
| Database.StudyDeleteKeepsConsistent | server/src/database.ts:48-81 | Study delete with SET NULL keeps the schema invariant |
| Database.MilestoneDeleteKeepsConsistent | server/src/database.ts:67-81 | Milestone delete keeps the schema invariant |
| Database.DeleteRemovesExactlyOne | server/src/routes/programs.routes.ts:187 | With unique ids, deleting by the id of row i leaves exactly the other rows, in order |
| Database.StudyDeleteRemovesExactlyOne | server/src/routes/studies.routes.ts:121 | The same for studies |
| Database.MilestoneDeleteRemovesExactlyOne | server/src/routes/milestones.routes.ts:88 | The same for milestones |
| Database.Store.constructor | server/src/database.ts:17-84 | A new database has four empty tables and satisfies the schema invariant |
| Database.Store.InsertUser | server/src/database.ts:19-28 | INSERT succeeds exactly when id and username are new; it then appends the row, otherwise nothing changes |
| Database.Store.InsertProgram | server/src/database.ts:30-46 | INSERT succeeds exactly when id and code are new |
| Database.Store.InsertStudy | server/src/database.ts:48-65 | INSERT succeeds exactly when id and protocol number are new and the program exists |
| Database.Store.InsertMilestone | server/src/database.ts:67-81 | INSERT succeeds exactly when the id is new, the program exists and the study, if any, exists |
| Database.Store.UpdateProgramAt | server/src/routes/programs.routes.ts:154-171 | UPDATE replaces row i, keeps its id and code, and keeps the invariant |
| Database.Store.UpdateStudyAt | server/src/routes/studies.routes.ts:88-108 | UPDATE replaces row i, keeps id, program and protocol number, and keeps the invariant |
| Database.Store.UpdateMilestoneAt | server/src/routes/milestones.routes.ts:65-75 | UPDATE replaces row i, keeps id, program and study, and keeps the invariant |
| Database.Store.DeleteProgram | server/src/database.ts:64-79 | DELETE removes the program, its studies and its milestones and keeps the invariant |
| Database.Store.DeleteStudy | server/src/database.ts:80 | DELETE removes the study and detaches its milestones |
| Database.Store.DeleteMilestone | server/src/routes/milestones.routes.ts:88 | DELETE removes the milestone only |
| Ordering.OrderBy | server/src/routes/programs.routes.ts:79 | ORDER BY returns a permutation of its rows, sorted by the key, ascending or descending |
| Ordering.InOrderTotal | server/src/routes/programs.routes.ts:79 | Any two keys can be ordered, NULL included |
| Ordering.InOrderTrans | server/src/routes/programs.routes.ts:79 | The key order is transitive, in both directions |
| Paging.Paginate | server/src/routes/studies.routes.ts:26-39 | total counts every row; page = max(1, p); size = min(100, max(1, s)); data is the slice at offset (page−1)·size, at most size long and full unless the rows run out; totalPages = ceil(total / size) |
| Paging.CeilDivBounds | server/src/routes/programs.routes.ts:88 | `Math.ceil(total / size)` is the least page count that holds every row; it is 0 only for no rows |
| Paging.PageEmptyIffPastLast | server/src/routes/studies.routes.ts:26-39 | A page is empty exactly when it lies past the last page; there are no pages exactly when there are no rows |
| Paging.EveryRowOnItsPage | server/src/routes/programs.routes.ts:22-24 | Row i is on page i / size + 1 at position i mod size |
| Grouping.Distinct | server/src/routes/programs.routes.ts:94-96 | SELECT DISTINCT ... ORDER BY gives every value once, ascending |
| Grouping.AscendingDetermined | server/src/routes/programs.routes.ts:94-96 | Two ascending, duplicate-free lists with the same members are equal, so the distinct list is unique |
| Grouping.GroupByFacts | server/src/routes/dashboard.routes.ts:35-42 | GROUP BY key lists each present key once, ascending, with the sum of its rows, and the group sums add up to the sum of all rows |
| Grouping.GroupsCoverTotal | server/src/routes/dashboard.routes.ts:35-42 | Summing the groups over a duplicate-free list of keys that covers every row gives the total |
| Grouping.CountByFacts | server/src/routes/dashboard.routes.ts:13-23 | COUNT(*) GROUP BY lists each present value once, ascending, with its number of rows, at least 1, and the counts add up to the row count |
| Grouping.AbsentGroupIsZero | server/src/routes/dashboard.routes.ts:37-38 | A key without rows sums to 0 |
| Grouping.GroupSumNonneg | server/src/routes/programs.routes.ts:57-77 | A sum of values that are not negative is not negative |
| Grouping.GroupSumMonotone | server/src/routes/programs.routes.ts:63 | Raising values row by row does not lower any group sum |
| Programs.BuildConditions | server/src/routes/programs.routes.ts:26-47 | The pushed conditions, joined with AND, hold exactly for the programs that match every given filter and the search; none are pushed exactly when no filter is given; at most four |
| Programs.SearchHitMeaning | server/src/routes/programs.routes.ts:41-45 | A search hit is a substring (by position) of the lower-cased name, code, indication or target; a NULL target matches nothing |
| Programs.SearchIgnoresCase | server/src/routes/programs.routes.ts:41-45 | Upper-casing the search term does not change which programs match |
| Programs.SortColumnOf | server/src/routes/programs.routes.ts:50-51 | An allowed column name is used as is; any other sortBy falls back to name |
| Programs.StatsFacts | server/src/routes/programs.routes.ts:57-77 | study_count and milestone_count are the numbers of studies and milestones of the program; they and the enrollment sums are 0 without studies or milestones; 0 ≤ completed_milestones ≤ milestone_count |
| Programs.ListProgramsCounts | server/src/routes/programs.routes.ts:54-89 | total counts every matching program whatever the page; page and size are clamped; at most size rows |
| Programs.ListProgramsRows | server/src/routes/programs.routes.ts:57-81 | Every listed row is a matching program of the table, carrying its own statistics |
| Programs.ListProgramsOrdered | server/src/routes/programs.routes.ts:50-81 | The page is the slice at its offset of some ordering of the matches by the chosen column; the order is DESC exactly for "desc" |
| Programs.ListProgramsPage | server/src/routes/programs.routes.ts:78-81 | The page is the slice at its offset of the sorted matches, each row with its statistics |
| Programs.FiltersSpec | server/src/routes/programs.routes.ts:93-103 | Each filter list holds exactly the values present in the table, once each, ascending |
| Programs.GetProgram | server/src/routes/programs.routes.ts:106-117 | 404 exactly for an unknown id; otherwise the program with exactly its studies (latest start first) and its milestones (earliest plan first) |
| Programs.NewProgram | server/src/routes/programs.routes.ts:134-138 | The inserted row carries the given fields; status defaults to Active; absent optional texts are NULL; the CHECKs refuse an unknown phase or status |
| Programs.CreateProgram | server/src/routes/programs.routes.ts:120-142 | 400 for a missing name, code, area, phase or indication, then 409 for a taken code, each inserting nothing; otherwise 201 with the appended row, or 500 with nothing changed on a CHECK or id failure |
| Programs.PatchProgram | server/src/routes/programs.routes.ts:153-171 | A field changes only when a non-empty value is given; id, code and created_at never change |
| Programs.EmptyPatchOnlyTouches | server/src/routes/programs.routes.ts:156-166 | A PUT with no fields changes nothing but updated_at |
| Programs.PatchProgramIdempotent | server/src/routes/programs.routes.ts:153-171 | Applying the same patch twice equals applying it once |
| Programs.UpdateProgram | server/src/routes/programs.routes.ts:145-177 | 404 with no change for an unknown id; otherwise the row is replaced by its patch (200), or 500 with no change when a CHECK refuses it |
| Programs.DeleteProgram | server/src/routes/programs.routes.ts:180-189 | 404 with no change for an unknown id; otherwise exactly that program is removed, with its studies and milestones |
| Studies.BuildStudyConditions | server/src/routes/studies.routes.ts:13-25 | The pushed conditions, joined with AND, hold exactly for the studies that match the given program_id and status; none when neither is given |
| Studies.ListStudiesSpec | server/src/routes/studies.routes.ts:10-40 | total counts every matching study; page and size (default 50) are clamped; every row matches; the page is the slice of some ordering by start_date DESC |
| Studies.GetStudy | server/src/routes/studies.routes.ts:43-51 | 404 exactly for an unknown id; otherwise the study with exactly the milestones tied to it, ordered by planned date ascending |
| Studies.NewStudy | server/src/routes/studies.routes.ts:68-72 | Status defaults to Planned; absent counts are 0; any counts are accepted, current above target included; only the status CHECK can refuse the row |
| Studies.CreateStudy | server/src/routes/studies.routes.ts:54-76 | 400 for a missing program_id, name, protocol number or phase, then 404 for an unknown program, each inserting nothing; otherwise 201 with the appended row, or 500 with no change for a taken protocol number or id |
| Studies.PatchStudy | server/src/routes/studies.routes.ts:86-108 | Text fields change only for a non-empty value; the three counts change for any given value, 0 included; id, program and protocol number never change |
| Studies.PatchStudyIdempotent | server/src/routes/studies.routes.ts:86-108 | Applying the same patch twice equals applying it once |
| Studies.UpdateStudy | server/src/routes/studies.routes.ts:79-112 | 404 with no change for an unknown id; otherwise the row is replaced by its patch, or 500 with no change |
| Studies.DeleteStudy | server/src/routes/studies.routes.ts:115-123 | 404 with no change for an unknown id; otherwise exactly that study is removed and its milestones lose their study_id |
| Milestones.PushIfGiven | server/src/routes/milestones.routes.ts:14-17 | A condition is pushed only for a given parameter, and the AND of the list gains exactly that condition |
| Milestones.BuildMilestoneConditions | server/src/routes/milestones.routes.ts:11-19 | The pushed conditions, joined with AND, hold exactly for the milestones that match every given filter; none when no filter is given |
| Milestones.ListMilestonesSpec | server/src/routes/milestones.routes.ts:8-34 | total counts every matching milestone; page and size (default 50) are clamped; every row matches; the page is the slice of some ordering by planned_date ASC |
| Milestones.UndatedFirst | server/src/routes/milestones.routes.ts:25 | On a listed page, a milestone without a planned date never follows one with a date |
| Milestones.NewMilestone | server/src/routes/milestones.routes.ts:45-49 | Status defaults to Pending; study, description and both dates are NULL when absent; the CHECKs refuse an unknown category or status |
| Milestones.CreateMilestone | server/src/routes/milestones.routes.ts:37-53 | 400 for a missing program_id, title or category, inserting nothing; otherwise 201 with the appended row, or 500 with no change on a CHECK, id or foreign-key failure |
| Milestones.PatchMilestone | server/src/routes/milestones.routes.ts:63-75 | Only non-empty given fields change; id, program, study and created_at never change |
| Milestones.ActualDateNeverCleared | server/src/routes/milestones.routes.ts:72 | A recorded actual date survives every update |
| Milestones.PatchMilestoneIdempotent | server/src/routes/milestones.routes.ts:63-75 | Applying the same patch twice equals applying it once |
| Milestones.UpdateMilestone | server/src/routes/milestones.routes.ts:56-79 | 404 with no change for an unknown id; otherwise the row is replaced by its patch, or 500 with no change |
| Milestones.DeleteMilestone | server/src/routes/milestones.routes.ts:82-90 | 404 with no change for an unknown id; otherwise exactly that milestone is removed |
| Dashboard.Assign | server/src/routes/dashboard.routes.ts:15 | `rec[k] = v` keeps the keys and adds k; a new key goes at the end |
| Dashboard.FillRecord | server/src/routes/dashboard.routes.ts:13-23 | The forEach fill has exactly the keys of the rows; for duplicate-free keys the record is the rows themselves, in order |
| Dashboard.UpcomingRows | server/src/routes/dashboard.routes.ts:25-33 | The upcoming list is the first min(10, n) qualifying milestones in planned-date order, each joined with its program |
| Dashboard.UpcomingSpec | server/src/routes/dashboard.routes.ts:25-33 | At most 10 rows, and fewer only when fewer qualify; each is a Pending or In Progress milestone with a planned date and carries its program's name and code; ascending by planned date; the first rows of some ordering of the qualifying milestones |
| Dashboard.UpcomingIsEarliest | server/src/routes/dashboard.routes.ts:29-32 | A qualifying milestone is left out only when 10 rows are listed, each planned no later than it |
| Dashboard.EnrollmentByPhaseRows | server/src/routes/dashboard.routes.ts:35-42 | One row per distinct program phase, ascending; a phase whose programs have no studies sums to 0 |
| Dashboard.PhaseSumsCover | server/src/routes/dashboard.routes.ts:35-42 | Summing per-phase sums of per-program sums gives the sum over every row |
| Dashboard.EnrollmentByPhaseTotals | server/src/routes/dashboard.routes.ts:11-42 | When every study refers to an existing program, the per-phase current and target enrollments add up to the overall sums |
| Dashboard.GetDashboard | server/src/routes/dashboard.routes.ts:8-55 | The handler changes no table, and its response is DashboardOf the tables |
| Dashboard.DashboardCounts | server/src/routes/dashboard.routes.ts:9-23 | totalPrograms and totalStudies are row counts; the sums are 0 without studies; each record lists every present value once, ascending, with its program count; the counts add up to totalPrograms |
| Auth.BearerToken | server/src/auth.ts:26 | The second space-separated word always exists after "Bearer " and contains no space |
| Auth.BearerTokenIsNextWord | server/src/auth.ts:26 | The token is the text after "Bearer " up to the next space, or the whole rest |
| Auth.Authenticate | server/src/auth.ts:19-34 | 401 "Authentication required" exactly for a missing header or one without the "Bearer " prefix; 401 "Invalid or expired token" exactly when verification fails; otherwise the next handler runs with exactly the decoded claims |
| Auth.Authorize | server/src/auth.ts:36-48 | 401 exactly when no user is attached; the request passes exactly when the role is listed, with the same user; otherwise 403 |
| Auth.GuardPasses | server/src/auth.ts:19-48 | A guarded handler runs exactly for a verified token whose role is listed; a 403 comes only after authentication succeeded |
| Auth.RouteRoles | server/src/routes/programs.routes.ts:120-180 | Viewers reach no write handler; only admins reach delete handlers; an admin with a valid token reaches both kinds |
| AuthRoutes.FindByUsername | server/src/routes/auth.routes.ts:17 | The lookup finds nothing exactly when the username is unknown; otherwise it finds a user with that name |
| AuthRoutes.Login | server/src/routes/auth.routes.ts:10-41 | 400 exactly for a missing username or password; every other failure is 401 "Invalid credentials", for an unknown user and for a wrong password alike; success carries the token signed over exactly the user's id, username and role, and the user without the hash |
| AuthRoutes.LoginSucceedsIff | server/src/routes/auth.routes.ts:12-30 | With unique usernames, login succeeds exactly when some user has that name and a hash that matches the password |
| AuthRoutes.Me | server/src/routes/auth.routes.ts:44-51 | 404 "User not found" exactly when the token's user id is gone; otherwise that user without the hash |
| AuthRoutes.NewUser | server/src/routes/auth.routes.ts:67-73 | The stored row holds the hash of the password, never the password; the role CHECK refuses unknown roles; an absent email is NULL |
| AuthRoutes.Register | server/src/routes/auth.routes.ts:54-76 | 400 for a missing username, password, role or full name, then 409 for a taken username, each inserting nothing; otherwise 201 with the appended user and a reply without the password, or 500 with no change on a role CHECK or id failure |
| AuthRoutes.RegisterRoute | server/src/routes/auth.routes.ts:54-76 | A request that fails authentication or is not from an admin is answered by the guard and changes nothing; an admin's request gets exactly the handler's outcomes: 400, then 409, each writing nothing, then 201 with the appended user and the other tables unchanged, or 500 with no change |
| ProgramList.WindowFacts | client/src/app/components/program-list/program-list.component.ts:93-101 | The page links run consecutively from max(1, current−2) to min(total, current+2), ascending, at most 5; all are real pages; none when there are no pages; current is among them whenever it is a real page |
| ProgramList.ProgramListPage.VisiblePages | client/src/app/components/program-list/program-list.component.ts:93-101 | The loop pushes exactly the window of page links |
| ProgramList.ProgramListPage.constructor | client/src/app/components/program-list/program-list.component.ts:31-45 | Page 1 of 1, page size 12, sorted by name ascending, no filters, loading |
| ProgramList.ProgramListPage.LoadPrograms | client/src/app/components/program-list/program-list.component.ts:64-76 | Sends exactly one request for the current state and shows the spinner |
| ProgramList.ProgramListPage.OnProgramsLoaded | client/src/app/components/program-list/program-list.component.ts:77-82 | Takes rows, total and page count from the envelope and stops the spinner |
| ProgramList.ProgramListPage.OnProgramsFailed | client/src/app/components/program-list/program-list.component.ts:83 | Only stops the spinner |
| ProgramList.ProgramListPage.OnFilterChange | client/src/app/components/program-list/program-list.component.ts:56-57 | Arms the debounce timer and sends nothing yet |
| ProgramList.ProgramListPage.FilterTimerFires | client/src/app/components/program-list/program-list.component.ts:58-61 | Resets the page to 1 before reloading, so the request sent asks for page 1 |
| ProgramList.ProgramListPage.GoToPage | client/src/app/components/program-list/program-list.component.ts:86-89 | A page outside 1..totalPages changes nothing; any other becomes current and is requested |
| ProgramList.ProgramListPage.ClearFilters | client/src/app/components/program-list/program-list.component.ts:107-113 | Empties phase, area, status and search, after which no filter is active, and arms the reload |
| ProgramList.HasActiveFiltersIgnoresSearch | client/src/app/components/program-list/program-list.component.ts:103-105 | Filters are active exactly when phase, area or status is set; the search text does not count |
| ProgramList.ClearThenReload | client/src/app/components/program-list/program-list.component.ts:56-113 | Clearing and letting the timer fire sends a page-1 request without filters that the server's list matches for every program |
| DashboardView.SortByCountDesc | client/src/app/components/dashboard/dashboard.component.ts:40-41 | The sorted entries are a permutation of the record's entries |
| DashboardView.SortByCountDescSorted | client/src/app/components/dashboard/dashboard.component.ts:40-41 | Counts are non-increasing |
| DashboardView.SortByCountDescStable | client/src/app/components/dashboard/dashboard.component.ts:40-41 | Entries with equal counts keep the order received |
| DashboardView.EntriesOrder | client/src/app/components/dashboard/dashboard.component.ts:40-41 | phaseEntries and areaEntries are permutations of their records, largest count first, with ties in the order received |
| DashboardView.DashboardPage.constructor | client/src/app/components/dashboard/dashboard.component.ts:27-32 | No statistics, empty entries, loading |
| DashboardView.DashboardPage.OnLoaded | client/src/app/components/dashboard/dashboard.component.ts:38-43 | Stores the statistics, sorts both entry lists and stops loading |
| DashboardView.DashboardPage.OnLoadFailed | client/src/app/components/dashboard/dashboard.component.ts:44 | Only stops loading |
| DashboardView.DashboardPage.EnrollmentPct | client/src/app/components/dashboard/dashboard.component.ts:48-52 | 0 without statistics or with target 0; otherwise pct · target = current · 100 |
| DashboardView.EnrollmentPctBounds | client/src/app/components/dashboard/dashboard.component.ts:48-52 | With a positive target, the percentage is not negative, is 100 on target and at most 100 below it |
| DashboardView.PhaseColorsDistinct | client/src/app/components/dashboard/dashboard.component.ts:54-61 | The seven phases get seven different colours |
| DashboardView.PhaseColorFallback | client/src/app/components/dashboard/dashboard.component.ts:54-61 | 'secondary' is the colour of Preclinical and of every text that is not a phase |
| DashboardView.PhaseColorKeys | client/src/app/components/dashboard/dashboard.component.ts:55-59 | The phase colour table is keyed by exactly the seven phase names |
| DashboardView.CategoryColorsDistinct | client/src/app/components/dashboard/dashboard.component.ts:63-69 | The four named categories get different colours; Other falls back to 'secondary' |
| DashboardView.MilestoneStatusBadges | client/src/app/components/dashboard/dashboard.component.ts:71-78 | The table has no key for 'In Progress' or 'Cancelled'; among milestone statuses exactly those two and Pending show 'secondary' |
| Layout.FirstCharsOfWords | client/src/app/components/layout/layout.component.ts:67 | map-then-join yields one character per non-empty piece, its first, in order; empty pieces from repeated spaces give nothing |
| Layout.GetInitials | client/src/app/components/layout/layout.component.ts:65-68 | "" without a user or name; otherwise the upper-cased first characters of the first two words, at most two |
| Layout.ExtraSpacesIgnored | client/src/app/components/layout/layout.component.ts:67 | A doubled space between two words changes nothing; two words give their two upper-cased initials |
| Layout.ReplaceFirstSpec | client/src/app/components/layout/layout.component.ts:71 | `replace('_', ' ')` changes only the first '_'; a text without '_' is unchanged; the length is kept |
| Layout.FormatRole | client/src/app/components/layout/layout.component.ts:70-72 | "" for no role or an empty one; a role without '_' is unchanged; otherwise the first '_' becomes a space |
| Layout.SnakeRole | client/src/app/components/layout/layout.component.ts:71 | A word without '_', then '_', then any rest, is shown as the word, a space and the rest, so 'portfolio_manager' shows as 'portfolio manager' |

## Left out

- `parseInt` on page parameters. Pages are integers. A non-numeric string gives NaN, which escapes the clamp; that case is not modelled.
- LIKE wildcards and Unicode case folding. A `%` or `_` inside the search term is not a wildcard in the model. LIKE and `toUpperCase` fold ASCII letters only.
- Integer-like keys of JavaScript objects. JavaScript lists such keys first, whatever the insertion order. Records are insertion-ordered lists here.
- Storage details: WAL mode, concurrency, `created_at` defaults and transactions are left out. The database file itself is left out too.
- The plaintext-password debug log in login. It is I/O.
- bcrypt and JWT internals, including the 24-hour expiry. They are the parameters `hash`, `passwordMatches`, `sign` and `verify`.
- The seed script, the Express and Angular wiring, the API and auth services, and the login and program-detail components. They are not part of this model.
- Window scrolling in `goToPage`, the filter-values request at start-up, and template rendering. They are I/O.
- DashboardView.DashboardPage.EnrollmentPct: uses exact reals. Double-precision rounding of the ratio is not modelled.
- Layout.GetInitials: upper-cases ASCII letters only. `toUpperCase` maps every Unicode letter. A first character outside the Basic Multilingual Plane is one UTF-16 unit in JavaScript and one char here.
- Lookups of inherited `Object.prototype` names (such as "constructor") in the colour tables are not modelled.
- Studies.CreateStudy: the condition current_enrollment ≤ target_enrollment is not enforced, as in the source. The model states that any counts are accepted.
- A milestone's study may belong to another program. The schema allows this, and so does the model.
- The `error` body of a 500. It comes from Express's default handler, which sends a generic page. The model uses the fixed text "Internal Server Error".
