# A verified model of the schema registry

This project models the stateful core of the registry — pushing, labelling and pulling module content; accounts,
roles and tokens; the rate limiter, the two blob stores and the two search back ends — and proves properties of it
that hold for all inputs, for all runs and, where the code runs concurrently, for all interleavings. Everything
verifies with `dafny verify dfyconfig.toml`.

## How it is organised

| file | what it holds |
|---|---|
| `Model.dfy`, `Authz.dfy` | the rows the parts share; role resolution and the policy table |
| `Archive.dfy`, `RestFiles.dfy` | file lists and archives: the writer's checks, the download reader, the REST reader |
| `Store.dfy` | the module, commit, label and blob tables, the writes made to them, and their integrity |
| `Resolve.dfy`, `Upload.dfy`, `Registry.dfy` | resolving and downloading; the writes a push plans; the handlers as methods of a class over the tables |
| `Concurrent.dfy`, `Runs.dfy` | the same handlers cut into single backend calls that interleave and fail anywhere; statements about whole runs |
| `Tenancy.dfy`, `Overlap.dfy` | users, organisations, memberships, module ownership, over runs of whole handler calls; the membership handlers when their checks and writes interleave |
| `Tokens.dfy` | login and API tokens |
| `RateLimit.dfy` | the fixed-window limiter over timed runs |
| `Paths.dfy`, `BlobStores.dfy` | lexical path cleaning as a component stack; the store on disk and the store in a table |
| `Search.dfy` | LIKE and regular-expression search, and the listing handler |
| `Witnesses.dfy` | a two-archive library on which the assumptions hold together, and concrete runs of what the findings below describe |

A push is described three times. `Registry.Server.Upload` is the handler, loop by loop, over tables that it changes
row by row. `Upload.Plan` is the list of writes it intends; the method is proved to make a prefix of that list,
and the lemmas of `Upload` say what the list amounts to. `Concurrent` is the same handler as a state machine with one
backend call to a step. The descriptions are proved to agree: the method follows the plan, and a push, a label request
or a pull that nothing interrupts leaves the tables of the plan, or gives the answer of the sequential function
(`Runs.LoneRunIsThePlan`, `Runs.LoneMoveIsThePlan`, `Runs.LonePullIsTheDownload`).

What the statements speak of is said apart from what the handlers compute with. Rights are read off the user, org and
membership tables (`Authz.Readable`, `Authz.Writable`, `Authz.Administrable`), the labels of a content off its request
(`Upload.NamesLabel`), the commit of a reference off label and commit tables (`Resolve.Meant`), a right password off the
stored hashes (`Tokens.RightPassword`); no handler calls any of these, and lemmas prove that the handlers agree with them
(`Authz.RightsFromTables`, `Upload.LabelNamesExact`, `Upload.CheckExact`, `Resolve.ResolveExact`, `Registry.CheckLabelExact`,
`Tokens.LoginUserExact`).

## Assumptions

- The digest is an uninterpreted function whose values are 64 lower-case hexadecimal digits. No digest of that form
  is free of collisions on all contents, so freedom from collisions is only ever asked of finitely many
  (`Archive.NoCollision`), and only where a statement says so: of the archives of one request (`Upload.PushThenPull`),
  of the blobs stored at two moments (`Resolve.PinnedDownload`, `Runs.PinnedForever`), of the blobs stored at any moment of
  one run (`Runs.AnswersAgree`). Integrity does not need it. `Resolve.PinnedDownloadExact` and
  `Upload.RepushMovesOnlyLabels` say exactly what a collision would change.
- Encoding an archive is deterministic, may fail, and where it succeeds decoding gives back the entries, in order,
  with declared sizes equal to their lengths (`Archive.Lawful`). Decoding anything else is unconstrained.
  `Witnesses.DemoIsLawful` exhibits a library that meets this and the previous assumption, with two different accepted
  lists that encode.
- The clock does not run backwards (a tick adds a non-negative amount). A label request through the sequential handler
  needs the clock not to be behind the stored commits; the concurrent model proves that it never is.
- IDs and secrets are drawn fresh where uniqueness matters: token secrets have distinct hashes; a module, org or
  user whose ID is taken is not inserted, as the primary key demands.
- Every backend call, including a blob write, happens at once or not at all, and may fail at any time. A request may
  stop for good after any call. In `Tenancy` a failing call of a registration, of a module creation, or of the first
  insertion of an org changes nothing, so it is left out of the runs; the calls of adding and removing members carry
  their faults.
- The rate limiter's ticks are at least one interval apart only in `WindowBound`; all else holds for any ticks.
- The current directory does not change while a store on disk is in use, and there are no symbolic links.
- Text searched is ASCII.

## What the proofs show about the code

- **A reference that is a commit ID is not always that commit.** When the commit read fails for a backend reason, the
  code goes on to look for a label of that name. `Resolve.CommitRefExact` gives the exact condition,
  `Witnesses.FaultLeadsElsewhere` a run in which such a pull answers with another commit, and `Runs.PinnedPull` shows that
  a pull none of whose own calls fails is never led elsewhere.
- **A label's update time can go back.** A push stamps the time at which its commit was first stored, or else the
  clock as it was before it stored the commit; a label request stamps the clock as it was after its checks. In the
  sequential handler the time goes back if and only if the commit is stored and older than the row's time, or is new and the
  clock is behind it (`Upload.UpdateTimeExact`). In any state of the concurrent model an event turns it back if and only if
  it is a label write carrying an earlier time (`Runs.TimeGoesBackExactly`). Pushing A, then B, then A again does it
  (`Upload.UpdateTimeGoesBack`, `Witnesses.RepushTurnsTimeBack`), but so does a first push, or a label request, that is
  slow (`Witnesses.FirstPushTurnsTimeBack`, `Witnesses.SlowMoveTurnsTimeBack`). The time is never before that of the commit.
- **Collecting expired tokens shows in one answer**: revoking an expired token succeeds before a collection and finds
  nothing after it (`Tokens.CollectionShowsInRevocation`, an exact condition; `Tokens.CollectionShows`, a run). It shows
  nowhere in authentication or listing. No handler collects: the repositories only offer it, so the server as it is never
  meets this.
- **An API token that its user gave the note "login" is deleted by that user's next login**
  (`Tokens.LoginTouchesOnlyLoginTokens`, `Tokens.CreatedTokenExactlyValid`; `Tokens.NotedTokenEnds`, a run).
- **An org can be without an admin.** As long as handler calls do not overlap, that is so if and only if some call created
  the org and failed at its creator's row, or the only admin removed themself (`Tenancy.AdminlessExactly`, at every moment
  of every run; `Tenancy.OrphansHappen`, two runs), and then it is so for ever (`Tenancy.NoAdminForever`).
- **When calls overlap, more can happen to an org's admins**, because the handlers check the caller and write the row in
  separate calls. An org without an admin can get one again: an admin passes the check for adding another admin, is
  removed, and then the row goes in (`Overlap.RaceRegainsAnAdmin`). And two admins can remove each other
  (`Overlap.DuelDeserts`). Then an org is without an admin if and only if some action deserted it (a whole call of the two
  above, the first half of its creation, or a pending removal of its only admin) and no pending write has given it one
  since (`Overlap.DesertedExactly`). Such a write was pending all the time that the org had none
  (`Overlap.AdminOnlyByPendingWrite`). Delegation survives the overlap, read as "was an admin of this org when the call was
  checked" (`Overlap.EveryRowIsWarranted`).
- **A failing user lookup can change the role under which a module is created**, when the user is also an admin of an org
  of their own name; no failing lookup allows what would be denied (`Authz.CreationRoleUnderFaults`,
  `Authz.FaultsOnlyDeny`).
- **A disk store rooted at "/" refuses every key but those that lead to "/" itself** (`BlobStores.SafePathExact`,
  `BlobStores.TwoPartAccepted`; `BlobStores.SlashRootRefuses` for every key a push builds).
- **The search back ends agree exactly on the queries without wildcards of the SQL dialect**: `%` and `_`, and with
  PostgreSQL also the backslash, are not escaped on the SQL side (`Search.FiltersAgreeExactly`). On the names that the
  registry admits they agree exactly on these, on the queries that ask for a character no name contains, and on those
  that ask for more than the 39 characters of a name can hold (`Search.FiltersAgreeOnNamesExactly`).
- **The limiter's bound of twice the limit in a window is reached** (`RateLimit.WindowBoundIsReached`).

## Model

| member | source | states |
|---|---|---|
| `Archive.ValidateFiles` | internal/api/module/upload.go:159-179 | accepts a file list if and only if count, every path, every size and the total size are within bounds: the early exit on a running total equals a check of the whole |
| `Archive.AcceptanceIgnoresOrder` | internal/api/module/upload.go:159-179 | two lists with the same files in different orders are both accepted or both refused |
| `Archive.PathOkExact` | internal/api/module/upload.go:163-169 | a path is accepted if and only if it is not empty, does not start with a slash, and holds neither a backslash nor two dots in a row |
| `Archive.AcceptedPathStaysInside` | internal/api/module/upload.go:163-169 | followed from any directory an accepted path leads into that directory, never above it: no component of it is ".." |
| `Archive.UnzipFiles` | internal/api/module/upload.go:199-234 | the reader that stops one byte past a limit, and on a running total, returns exactly the entries of an archive all of whose sizes are within bounds, and nothing otherwise |
| `Archive.UnpackExact` | internal/api/module/upload.go:199-234 | an archive is read if and only if every member opens and neither declares nor holds more than 10 MB, and all together hold at most 50 MB; the result has the members' names and bodies in order |
| `Archive.UnpackInvertsEncode` | internal/api/module/upload.go:181-234 | whatever the writer accepts and archives, the reader returns unchanged and in order: the limits of both sides agree |
| `Archive.GetFileContent` | internal/api/rest/files.go:95-131 | the answer is that of the first member with the path, cut at 10 MB, or that there is none |
| `Archive.ListFiles` | internal/api/rest/files.go:72-93 | all members, in order, with their declared sizes |
| `Archive.ReadersAgree` | internal/api/rest/files.go:72-131 | on every archive the writer can have stored, both readers succeed; the REST answer is the first downloaded file of that path, never truncated, and not-found exactly when none has it; the listing shows the downloaded paths and lengths |
| `RestFiles.ZipOverTimeExact` | internal/api/rest/files.go:31-70 | however the tables evolve between its three reads, a file handler without failing reads never answers with an internal error; it finds the bytes if and only if the module was there at the first read, is public or the caller's (owning user or member of the owning org, read off the tables), and the commit was there at the second; and the bytes hash to the commit's ID and are an archive |
| `RestFiles.CommitZipExact` | internal/api/rest/files.go:31-70 | in intact tables the file handlers find a commit if and only if the module exists, is public or belongs to the caller or an org of the caller, and the commit is its; they never answer with an internal error unless a read fails |
| `RestFiles.PrivateStaysPrivate` | internal/api/rest/files.go:31-70 | whatever fails and whatever changes between the reads, a caller who is not logged in gets no bytes of a private module from a file handler, nor from a download |
| `RestFiles.HandlersShowTheDownload` | internal/api/rest/files.go:31-131 | listing and file answers for a commit show exactly the file list that a download by its ID returns |
| `Store.ApplyKeepsIntact` | internal/db/sql/sql.go:235-277 | a write whose guard was established keeps all of integrity, changes no stored module or commit row, keeps the digest of every blob, and the ID and creation time of every label |
| `Store.CommitContent` | internal/api/module/upload.go:84-112 | behind every commit row is a blob whose digest is the commit's ID and that reads back as an accepted file list of which it is the archive |
| `Resolve.LabelRefExact` | internal/api/module/resolve.go:41-55 | in intact tables a label reference to an existing module resolves to the commit the label names if the label exists, and to nothing otherwise: the commit behind it is never missing |
| `Resolve.RefLabelExact` | internal/api/module/resolve.go:57-74 | a "ref" that is no stored commit's ID resolves exactly as the label of that name |
| `Resolve.ResolveExact` | internal/api/module/resolve.go:14-90 | without failing reads every reference resolves to the commit it stands for (by label, by ID, by a label in place of an ID, or by the default label "main"), and to none if and only if it stands for none |
| `Resolve.CommitRefExact` | internal/api/module/resolve.go:57-74 | a stored commit ID resolves to that commit if and only if the module read works and either the commit read works or the label fallback happens to lead to the same commit |
| `Resolve.DownloadExact` | internal/api/module/download.go:33-57 | without failing reads a download succeeds if and only if its reference stands for a commit and the module is public or its caller is the owning user or a member of the owning org; it returns that commit's row and the files of the archive under its key |
| `Resolve.NoDanglingReads` | internal/api/module/download.go:33-57 | a download without failing reads never meets a row that names something missing or bytes that do not unpack, and what it returns hashes to the returned commit's ID |
| `Resolve.PinnedDownloadExact` | internal/api/module/resolve.go:57-74 | with nothing assumed of digests: downloads by a stored commit ID succeed in both states with the same row, and give the same files if and only if the bytes under the commit's key are the same |
| `Resolve.PinnedDownload` | internal/api/module/resolve.go:57-74 | if no two blobs stored in the two states collide, a download by commit ID gives the same row and files in any later state |
| `Registry.Server.StoreCommit` | internal/api/module/upload.go:90-112 | blob, then commit unless found; the writes made are a prefix of these; it stops early only when its last call failed, or a failing lookup made it insert a stored commit again, which the primary key refuses |
| `Registry.Server.MoveLabels` | internal/api/module/upload.go:114-138 | the label writes made are a prefix of one upsert per name, all of them unless the last call failed |
| `Registry.Server.PushContent` | internal/api/module/upload.go:84-138 | the writes made for one content are a prefix of its plan, the whole plan on success, and it stops early only in these two ways; after success the content's archive is stored under the key made of module ID and digest, its commit row exists, and every label that the request lists for it points to that commit |
| `Registry.Server.Upload` | internal/api/module/upload.go:41-153 | the tables are the old ones plus a prefix of the planned writes, the whole plan on success; success implies that for every content the module exists, the caller is its owning user or a member of its owning org, and the files are within bounds; it returns the digests of the encoded files, and every label that a content lists and no later content for the module does points to that digest; an error is the first refused content's reason, or means that the last call made failed, or that a failing lookup before it made it insert a stored commit again; integrity is kept either way |
| `Registry.Server.CreateOrUpdateLabels` | internal/api/module/label.go:87-134 | the same for label requests: a prefix of the plan, and an error that is the first refused entry's or the failure of the last call made; on success the caller owns the module of every entry as its user or is an admin of its org, every commit is its module's, and every label points to the commit of its last entry; integrity is kept while the clock is not behind the stored commits |
| `Registry.CheckLabelExact` | internal/api/module/label.go:97-128 | an entry of a label request is refused as permission denied if and only if its module exists and the caller is neither its owning user nor an admin of its owning org; as not found if and only if the module does not exist; and accepted if and only if the caller is one of these and the commit is the module's |
| `Registry.LastEntryWins` | internal/api/module/label.go:97-128 | after a whole label request each label it is for points to the commit of its last entry, with that entry's time, and all other labels keep their rows |
| `Registry.LabelPrefixKeepsIntact` | internal/api/module/label.go:112-128 | however far a label request gets it keeps integrity and changes label rows only |
| `Registry.Server.Download` | internal/api/module/download.go:26-73 | the contents of all references in order, or the error of the first that fails |
| `Upload.LabelNamesExact` | internal/api/module/upload.go:114-125 | a content moves exactly the labels that its request lists, an empty name standing for "main", and "main" alone if it lists none |
| `Upload.CheckExact` | internal/api/module/upload.go:51-83 | a content is refused as permission denied if and only if its module exists and the caller is neither its owning user nor a member of its owning org; each other refusal and the success likewise, from the tables and the file list |
| `Upload.ContentEffect` | internal/api/module/upload.go:84-138 | what one content's writes amount to: its blob under module ID, slash, digest; one commit row, of the caller and the time if it is new and unchanged otherwise; every named label on that commit with the commit's time, an existing row keeping its ID and creation time; every other label untouched |
| `Upload.LastWriterWins` | internal/api/module/upload.go:51-138 | after a whole request each label listed for a module, or meant by default, points to the digest of the last content that lists it |
| `Upload.EveryLabelMoved` | internal/api/module/upload.go:51-138 | the same told of the request alone: each label a content lists, and no later content for the same module, points to the digest of that content's encoded files |
| `Upload.UnmovedLabelStays` | internal/api/module/upload.go:51-138 | a label no content names keeps its whole row |
| `Upload.EveryArchiveIsStored` | internal/api/module/upload.go:84-93 | after a whole request whose archives do not collide, the blob under each content's key is that content's archive, whatever was stored before |
| `Upload.PushThenPull` | internal/api/module/upload.go:51-153 | after a successful request whose own archives do not collide, downloading a label (or the default reference, for "main", or a "ref" of that name that is no stored commit's ID) returns exactly the files, in order, of the last content whose list of labels names it; nothing is assumed of earlier contents |
| `Upload.RepushMovesOnlyLabels` | internal/api/module/upload.go:95-138 | pushing stored content leaves modules and commits (with creator and time) as they are, and the blobs too if and only if the pushed archive does not collide with the stored one; it moves the labels that the request lists, keeping their ID and creation time, and stamps them with the stored commit's time |
| `Upload.UpdateTimeExact` | internal/api/module/upload.go:95-138 | pushing a content turns a label's update time back if and only if its commit is stored and older than that time, or is not stored and the clock is behind it |
| `Upload.UpdateTimeGoesBack` | internal/api/module/upload.go:95-138 | for any contents A and B and any tables: pushing A, B later, then A again takes a label's update time from the second push back to the first |
| `Upload.AnyPrefixKeepsIntact` | internal/api/module/upload.go:84-138 | stopped after any write, an upload leaves the tables intact and everything stored before it in place |
| `Upload.PrefixStopsInOneContent` | internal/api/module/upload.go:51-138 | any cut of an upload is all writes of the contents before one content plus a prefix of that content's |
| `Upload.UploadFrame` | internal/api/module/upload.go:51-138 | an upload that stops anywhere changes no label, commit or blob of a module that none of the contents it has got to names and passes for, whatever later contents name |
| `Concurrent.PushStepOk` | internal/api/module/upload.go:51-138 | every single backend call of a push, from whatever it has established so far, keeps integrity and establishes what its next call needs |
| `Concurrent.MoveStepOk` | internal/api/module/label.go:97-132 | the same for label requests: the check made before the write still holds when the write is made |
| `Concurrent.PullStepOk` | internal/api/module/resolve.go:32-89 | the same for pulls: what a read has found is still there at the next read |
| `Concurrent.PushChecksExactly` | internal/api/module/upload.go:51-83 | among interleaved requests a push gets past its checks if and only if the call does not fail, the caller is the module's owning user or a member of its owning org at that moment, and files and archive are within bounds |
| `Concurrent.MoveAuthorizesExactly` | internal/api/module/label.go:103-110 | a label request gets past its authorization if and only if the call does not fail and the caller is at that moment the module's owning user or an admin of its owning org |
| `Concurrent.PullDeniesExactly` | internal/api/module/download.go:38-46 | a pull that has found its commit is refused if and only if the module is private and the caller is neither its owning user nor a member of its owning org |
| `Concurrent.ProcOkSurvives` | internal/api/module/upload.go:84-138 | what a request has established survives every change that others can make |
| `Concurrent.AlwaysOk` | internal/api/module/upload.go:84-138 | in every state reachable by any number of interleaved pushes, label requests and pulls, each failing or stopping anywhere, every label names a stored commit and every commit's key holds a blob with that digest |
| `Runs.RunEvolves` | internal/db/sql/sql.go:235-277 | between any two moments of a run, module and commit rows stay, blobs keep their digests, labels keep ID and creation time |
| `Runs.PullsAreSafe` | internal/api/module/download.go:33-57 | a finished pull that interleaved with arbitrary writers has not met a dangling label, a dangling commit or a broken archive, and its answer belongs to the referenced module and hashes to its commit's ID |
| `Runs.AnswersAreSourced` | internal/api/module/resolve.go:41-89 | the commit a pull answers with is the one its reference spells out, or the one that the wanted label named at the very moment when the pull read it |
| `Runs.PinnedForever` | internal/api/module/resolve.go:57-74 | once a commit is stored, downloads by its ID agree at all later moments of every run, if no two blobs stored at the two moments collide |
| `Runs.PinnedPull` | internal/api/module/resolve.go:57-74 | a pull by ID of a stored commit, none of whose own calls fails, answers with that commit or is refused, whatever labels others create meanwhile |
| `Runs.AnswersWereStored` | internal/api/module/download.go:47-57 | the archive of the files a pull has answered with was stored at some moment of the run |
| `Runs.AnswersAgree` | internal/api/module/download.go:33-70 | if no two blobs ever stored in a run collide, any two pulls of it that answer with the same commit ID answer with the same files |
| `Runs.TimeGoesBackExactly` | internal/db/sql/sql.go:271-277 | in any state, an event turns a label's update time back if and only if it is a label write of a push or a label request that does not fail and carries an earlier time than the row |
| `Runs.CommitsAreStoredOnce` | internal/api/module/upload.go:95-112 | a commit row of an ID exists if and only if some push stored it, and then exactly one did, also among identical concurrent pushes |
| `Runs.LoneRunIsThePlan` | internal/api/module/upload.go:41-153 | a push that nothing interrupts leaves exactly the tables of the sequential plan |
| `Runs.LoneMoveIsThePlan` | internal/api/module/label.go:87-134 | a label request that nothing interrupts leaves exactly the tables of its sequential plan |
| `Runs.LonePullIsTheDownload` | internal/api/module/resolve.go:14-90 | a pull that nothing interrupts gives exactly the sequential download's answer, whichever of its reads fail |
| `Tenancy.Handlers.HandleRegister` | internal/api/rest/auth.go:36-80 | success adds one user under a free name and a free ID, anything else changes nothing; in consistent tables nobody's rights on any module change |
| `Tenancy.Handlers.HandleCreateOrg` | internal/api/rest/orgs.go:45-82 | success gives an org whose only member is its creator, as an admin; if the second insertion fails, an org that nobody belongs to; nobody's rights on existing modules change |
| `Tenancy.Handlers.HandleAddMember` | internal/api/rest/orgs.go:84-123 | success means the caller was an admin, the row was absent and exactly it was added: that user alone gains the rights of the role on the org's modules; anything else changes nothing |
| `Tenancy.Handlers.HandleRemoveMember` | internal/api/rest/orgs.go:125-153 | success means the caller was an admin and exactly the named user's row is gone: that user alone loses all rights on the org's modules; anything else changes nothing |
| `Tenancy.Handlers.HandleCreateModule` | internal/api/rest/modules.go:87-140 | success adds exactly the requested module, which the caller can administer; nobody's rights on other modules change; anything else changes nothing |
| `Tenancy.RegisterMeans` | internal/api/rest/auth.go:64-78 | when a registration succeeds, conflicts or fails, each exactly; what it adds; and that it gives nobody any right |
| `Tenancy.CreateOrgMeans` | internal/api/rest/orgs.go:62-80 | exactly when a creation succeeds, conflicts or is refused; who belongs to a new org, after success and after a failed second insertion; and that all other memberships and all rights stay |
| `Tenancy.AddMemberMeans` | internal/api/rest/orgs.go:96-121 | adding succeeds if and only if no call fails, the caller is an admin of the org, and the user exists and is not yet a member; which refusal is given when, exactly; exactly whose rights change, and how |
| `Tenancy.RemoveMemberMeans` | internal/api/rest/orgs.go:137-151 | removing succeeds if and only if no call fails, the caller is an admin of the org and the user exists, member or not; which refusal is given when, exactly; exactly whose rights change, and how |
| `Tenancy.CreateModuleMeans` | internal/api/rest/modules.go:106-137 | a creation succeeds if and only if the caller is the user of the owner name or an admin of the org of that name, and neither the name pair nor the ID is taken; it is forbidden, or conflicts, exactly otherwise; the creator can administer the new module, and no right on another module changes |
| `Tenancy.AlwaysConsistent` | internal/db/sql/models.go:10-35 | in every reachable state names and IDs of users are inverse to each other, org IDs are unique, members and owners exist |
| `Tenancy.WritersAreOwners` | internal/authz/authz.go:71-176 | in every reachable state administering implies writing implies reading; a module's writers are exactly its owning user, or exactly the owning org's current members, also where a user and an org share the name; its administrators are exactly that user, or that org's admins; a private module is read by exactly its writers, and a public one by anyone |
| `Tenancy.CreatorKeepsRole` | internal/api/rest/modules.go:106-137 | the role that allowed a creation is the creator's role on the new module, which has the requested ID, name and visibility |
| `Tenancy.ModulesStay` | internal/db/sql/sql.go:174-184 | over runs (owner, name) always leads to the same module row |
| `Tenancy.EveryRowIsDelegated` | internal/api/rest/orgs.go:45-123 | over runs of calls that do not overlap, every membership row traces back, through callers who were admins when they inserted it, to the org's creation |
| `Tenancy.MembersByHistory` | internal/api/rest/orgs.go:45-153 | a user is a member if and only if a successful call made them one and no successful call has removed them since |
| `Tenancy.RoleFixedUntilRemoval` | internal/db/sql/models.go:22-26 | a membership row keeps its role for as long as it is there |
| `Tenancy.NoAdminForever` | internal/authz/authz.go:101-113 | over runs of calls that do not overlap, an org without an admin never has one again, and its members never change |
| `Tenancy.AdminlessExactly` | internal/api/rest/orgs.go:67-80 | at any moment of any run of calls that do not overlap, an org exists without an admin if and only if some call before created it and failed at its creator's row, or was its only admin's removal of themself |
| `Tenancy.OrphansHappen` | internal/api/rest/orgs.go:45-153 | two actual runs that do this, with any calls after them |
| `Overlap.UninterruptedAdd` | internal/api/rest/orgs.go:84-123 | the checks of an addition followed at once by its write are the addition that nothing interrupts |
| `Overlap.UninterruptedRemove` | internal/api/rest/orgs.go:125-153 | the same for a removal |
| `Overlap.UninterruptedCreate` | internal/api/rest/orgs.go:45-82 | the same for a creation, also when its second insertion fails |
| `Overlap.AlwaysOk` | internal/api/rest/orgs.go:45-153 | the tables stay consistent, and every pending write refers to an org that exists, in every state reachable by overlapping calls |
| `Overlap.AdminlessThroughoutExactly` | internal/api/rest/orgs.go:96-121 | also when calls overlap: an org without an admin stays so all the way if and only if no pending write that would give it one takes effect on the way |
| `Overlap.DesertedExactly` | internal/api/rest/orgs.go:45-153 | at any moment of any run of overlapping calls an org exists without an admin if and only if some action deserted it and no pending write that would give it one has taken effect since |
| `Overlap.AdminOnlyByPendingWrite` | internal/api/rest/orgs.go:96-121 | if an org without an admin has one later, the first of those came by a write that was pending, its check passed, at the earlier moment already and, as the same write, all the time since |
| `Overlap.RaceRegainsAnAdmin` | internal/api/rest/orgs.go:84-153 | an actual run of overlapping calls in which an org without an admin gets one |
| `Overlap.DuelDeserts` | internal/api/rest/orgs.go:125-153 | an actual run of overlapping calls in which two admins remove each other and leave the org without one |
| `Overlap.EveryRowIsWarranted` | internal/api/rest/orgs.go:45-123 | also when calls overlap: every membership row came in with a whole call, or with the write of a call begun earlier and pending since, and has stayed; that call was the org's creation by this user, or an addition to this very org by a caller who was its admin when checked and whose own row traces back in the same way |
| `Authz.RightsFromTables` | internal/authz/authz.go:71-176 | reading, writing and administering a module, each if and only if it is allowed by what the user, org and membership tables say: owning user, member or admin of the owning org, anyone for reading a public module |
| `Authz.CreationFromTables` | internal/authz/authz.go:116-185 | creating under an owner name is allowed if and only if the caller is the user of that name or an admin of the org of that name |
| `Authz.RightsUnderFaults` | internal/authz/authz.go:71-143 | exactly which of these rights are left when lookups of the user, the org or the membership fail, and when a creation is answered by an error |
| `Authz.FaultsOnlyDeny` | internal/authz/authz.go:71-143 | a lookup that fails during role resolution never allows what would be denied without the failure |
| `Authz.CreationRoleUnderFaults` | internal/authz/authz.go:116-143 | the role that allows a creation under failing lookups differs from the role without them if and only if the user lookup failed for the owner, and then it is that of an admin of the org of the same name |
| `Tokens.TokenServer.HandleLogin` | internal/api/rest/auth.go:82-119 | a login is refused, and changes nothing, if and only if there is no user of that name whose stored hash the password checks against; an issued secret authenticates that user, and nobody else, for exactly a day; if the clean-up works it is the user's only login token; no other token comes or goes |
| `Tokens.TokenServer.HandleCreate` | internal/api/rest/auth.go:162-189 | an issued secret authenticates the caller with no end, under a hash that was free; all other tokens stay; anything but success changes nothing |
| `Tokens.TokenServer.HandleRevoke` | internal/api/rest/auth.go:191-203 | afterwards the caller has no token of that ID and all others are as before; the answer says whether there was one |
| `Tokens.TokenServer.HandleList` | internal/api/rest/auth.go:130-160 | each of the caller's unexpired tokens that does not carry the note "login" is shown exactly once, and nothing else |
| `Tokens.AuthenticationExact` | internal/auth/interceptor.go:17-39 | both authenticators let a header without a bearer secret through as nobody; one with a secret as the user of its row if that is in the table, its user known and its last moment not past; otherwise the REST side goes on without a user and the RPC side refuses |
| `Tokens.ListedExactly` | internal/api/rest/auth.go:143-160 | the token list shows a token if and only if its secret would authenticate the user at that moment and it does not carry the note "login" |
| `Tokens.LoginMeans` | internal/api/rest/auth.go:91-118 | the same about a login as a step of a run, whichever of its two calls fails, with the row it inserts |
| `Tokens.CreateMeans` | internal/api/rest/auth.go:175-188 | the same about a creation as a step of a run |
| `Tokens.RevokeMeans` | internal/db/sql/sql.go:327-336 | the same about a revocation as a step of a run |
| `Tokens.CollectMeans` | internal/db/sql/sql.go:338-340 | a collection removes exactly the rows whose last moment has passed, and changes none of the others |
| `Tokens.CollectionIsInvisible` | internal/auth/middleware.go:15-42 | collections inserted anywhere in a run change neither whom the two authenticators let through, nor the user attached, nor any token list |
| `Tokens.CollectionShowsInRevocation` | internal/db/sql/sql.go:327-340 | a collection changes the answer to a revocation if and only if the caller has tokens of that ID and all have expired |
| `Tokens.CollectionShows` | internal/db/sql/sql.go:327-340 | an actual run: a login token more than a day old, revoked through an API token, with and without a collection before |
| `Tokens.TokenExactlyValid` | internal/auth/interceptor.go:17-39 | at every moment after it was issued, a secret authenticates its user in both authenticators if and only if it has not expired and no later call has ended it |
| `Tokens.LoginTokenExactlyValid` | internal/api/rest/auth.go:91-118 | the token of a login with the right password holds in both authenticators if and only if at most a day has passed, no later login of the user with the right password has cleaned it up and the user has not revoked it |
| `Tokens.CreatedTokenExactlyValid` | internal/api/rest/auth.go:175-203 | an API token holds in both authenticators until its user revokes it, unless it carries the note "login" |
| `Tokens.LoginTouchesOnlyLoginTokens` | internal/db/sql/sql.go:342-344 | a login with the right password whose clean-up works removes exactly the tokens of its user that carry the note "login"; any other login removes none |
| `Tokens.NotedTokenEnds` | internal/api/rest/auth.go:91-92 | an actual run: an API token with the note "login" holds until its user's next login |
| `RateLimit.RateLimiter.Allow` | internal/auth/ratelimit.go:28-40 | a request is let through exactly while the table is within its cap and the key below its limit; then this key's count goes up by one; no other key's count ever changes |
| `RateLimit.AdmissionsBound` | internal/auth/ratelimit.go:28-55 | a stretch of a run with r ticks admits at most (r + 1) times the limit for a key |
| `RateLimit.WindowBound` | internal/auth/ratelimit.go:28-55 | with ticks at least an interval apart, any half-open window of that length admits at most twice the limit for a key |
| `RateLimit.WindowBoundIsReached` | internal/auth/ratelimit.go:28-55 | for every limit and interval some run reaches that bound |
| `RateLimit.CountsSinceReset` | internal/auth/ratelimit.go:34-49 | each stored count is the number of admissions since the last tick |
| `RateLimit.TableBounded` | internal/auth/ratelimit.go:31-38 | the table never holds more than 100001 keys |
| `RateLimit.KeysAreIndependent` | internal/auth/ratelimit.go:28-40 | while the table stays within its cap, a key's answers are those of the run with everyone else left out |
| `Paths.CleanKeepsPlace` | internal/storage/storage.go:31-32 | making a cleaned path absolute spells out the component stack that the uncleaned path leads to |
| `Paths.PlaceOfStep` | internal/storage/storage.go:31-32 | what one more component does to where a path leads: an empty one and "." nothing, ".." undoes the last name and does nothing at the root, any other is one more name |
| `BlobStores.SafePathExact` | internal/storage/storage.go:30-44 | a key is accepted if and only if the root's components are a prefix of its normal form (and, for the root "/", only if the two are equal), and the answer is that normal form |
| `BlobStores.SafePathWithoutDirectory` | internal/storage/storage.go:32-39 | where the current directory is unknown, absolute roots answer as before and others refuse everything |
| `BlobStores.SameFileExact` | internal/storage/storage.go:30-44 | two accepted keys share a file if and only if they have the same normal form |
| `BlobStores.PushedKeyIsTwoPart` | internal/api/module/upload.go:85-88 | every key a push builds is two plain components |
| `BlobStores.TwoPartAccepted` | internal/storage/storage.go:30-44 | a two-component key is accepted if and only if the root is not "/", and stands two names below it |
| `BlobStores.TwoPartUnique` | internal/api/module/upload.go:88 | distinct pairs give distinct keys |
| `BlobStores.SlashRootRefuses` | internal/storage/storage.go:30-44 | under the root "/" every key that a push builds is refused |
| `BlobStores.LocalStore.Put` | internal/storage/storage.go:46-67 | after success a get of any key of the same place loads the data, places above and below it fail, and every other key replies as before; a failed put writes no file; the key is refused exactly when it leads outside the root |
| `BlobStores.PutThenGet` | internal/storage/storage.go:46-67 | the same about one put and one get of any two keys, on any disk |
| `BlobStores.DbStore.Put` | internal/storage/dbstore.go:39-57 | a get of the key then loads the data, and every other key replies as before |
| `BlobStores.RunRefines` | internal/storage/storage.go:46-67 | over any run of puts and gets under two-component keys, the store on disk gives the replies of the store in the table |
| `BlobStores.DiskLoadsLastPut` | internal/storage/storage.go:46-67 | after any run on an empty disk, a get loads the data of the last put under its key, and finds nothing if and only if there was none |
| `BlobStores.TableLoadsLastPut` | internal/storage/dbstore.go:39-57 | after any run on the blob table, a get loads the data of the last put under its key, or what was there before the run |
| `Search.EscapeRegex` | internal/db/mongo/mongo.go:257-267 | the loop's result stands for exactly the query it was given, for every query |
| `Search.EscapedReadsBack` | internal/db/mongo/mongo.go:257-267 | inserting backslashes before special characters, and nowhere else, is undone by reading the pattern |
| `Search.LikeSubstring` | internal/db/sql/sql.go:208-210 | a LIKE pattern between percent signs finds exactly the substring, when it has no wildcard of the dialect |
| `Search.WildcardDisagrees` | internal/db/sql/sql.go:208-210 | for every query with a wildcard there is a text no longer than it that LIKE finds and the regular expression does not |
| `Search.FiltersAgreeExactly` | internal/db/mongo/mongo.go:269-277 | the two filters agree on all texts if and only if the query has no wildcard of the SQL dialect |
| `Search.FiltersAgreeOnNamesExactly` | internal/db/mongo/mongo.go:269-277 | on the names that the registry admits (2 or 3 to 39 of its characters, no hyphen at either end), the filters agree if and only if the query has no wildcard, or asks for a character that no name contains, or for more characters than fit a name |
| `Search.WildcardDisagreesOnNames` | internal/db/sql/sql.go:208-210 | otherwise there is a name that LIKE finds and the regular expression does not |
| `Search.NameHasNeeded` | internal/db/sql/sql.go:208-210 | a name that a LIKE pattern matches is at least as long as the characters the pattern asks for, plus one for each end at which it asks for a hyphen |
| `Search.CaseExact` | internal/db/sql/sql.go:208-210 | characters are equal up to case if and only if they are the same or a capital and the small letter in its place of the alphabet |
| `Search.ListingExact` | internal/db/sql/sql.go:206-221 | for a query without wildcards a repository returns, newest first and as many as the limit allows, public modules whose name or owner contains the query in any case, and leaves out none that is newer than one it returns |
| `Search.ListingsAgree` | internal/db/mongo/mongo.go:269-287 | any two back ends with the same table, in which modules of one creation time have the same order, list the same for a query without wildcards |
| `Search.ListModules` | internal/api/rest/modules.go:52-85 | an owner's listing is exactly the rows that are public or belong to the caller or an org of the caller; a search is exactly what the repository returns, since the read filter drops none of it |
| `Witnesses.DemoIsLawful` | internal/api/module/upload.go:181-234 | the assumptions on the library hold together, with no collision, for two different accepted file lists that encode |
| `Witnesses.RoundTripHappens` | internal/api/module/upload.go:51-153 | an actual request meets all premises of the round trip: pushing A and B and pulling the default reference gives B |
| `Witnesses.RepushTurnsTimeBack` | internal/api/module/upload.go:95-138 | pushes of A at 1, B at 2 and A at 3 take the update time of "main" from 2 back to 1 |
| `Witnesses.FirstPushTurnsTimeBack` | internal/api/module/upload.go:95-138 | a concurrent run in which nothing is pushed twice and "main" goes from update time 5 back to 0 |
| `Witnesses.SlowMoveTurnsTimeBack` | internal/api/module/label.go:112-128 | the same by a label request that is slow |
| `Witnesses.FaultLeadsElsewhere` | internal/api/module/resolve.go:57-72 | a concurrent run in which a pull by the ID of a stored commit, whose commit read fails, answers with a different commit through a label of that name |
| `Witnesses.PinHolds` | internal/api/module/resolve.go:57-63 | in that same run the same reference without a fault keeps giving the pinned commit |

## Left out

- HTTP and RPC plumbing, JSON and protobuf conversion, logging, configuration: wiring only.
- SHA-256, bcrypt, UUID generation, the archive byte format, the policy engine: foreign code, seen as functions or as a set of triples.
- The file descriptor set compilation: foreign code.
- The Mongo repository other than its search: it has no unique indexes, so the invariants are not meant for it.
- The S3 store; the front end; deployment.
- Writing the archive entry by entry (internal/api/module/upload.go:181-197): folded into the archive law, which says what the result decodes to.
- A blob write on disk that is torn by a crash: backend calls are atomic here.
- Permissions, symbolic links and disk faults under the store on disk.
- Name, password and request syntax checks: they only refuse some requests earlier, so every run of the code is a run of the model.
- Tenancy.CreatorKeepsRole: speaks of creations whose lookups do not fail; `Authz.CreationRoleUnderFaults` says when a failing one changes the role. Elsewhere a backend fault inside role resolution denies (`Authz.FaultsOnlyDeny`), which ends the request as a refusal does.
- Within one content of a push, module lookup, role check and file checks are one step of the concurrent model; so are the module lookup and role check of a label request, and the read check and blob read of a pull. None of these reads is relied on later except the module row, which never changes.
- Two label rows drawing the same fresh ID: label IDs are not checked for uniqueness.
- Tenancy.NoAdminForever: like `Tenancy.AdminlessExactly`, `Tenancy.EveryRowIsDelegated` and the other run-level statements of that module, needs handler calls not to overlap. False of overlapping calls: between the check of the caller (internal/api/rest/orgs.go:96) and the insertion (internal/api/rest/orgs.go:117) of an added admin, the only admin can be removed. `Overlap` states what holds then.
- Interleavings inside the token handlers: each is one step, since without that "at most one login token per user" is false of the code.
- Overlapping registrations and module creations: one step each in `Overlap`, whose statements are about memberships.
- Tokens.CollectionIsInvisible: the directory of users is fixed during a run of token calls; registration changes it only elsewhere.
- Tokens.TokenExactlyValid: the same, and a backend fault in a token lookup, which lets nobody through, is not an event of these runs.
- BlobStores.DbStore.Put: holds for SQLite. The lookup quotes its column with backticks in raw SQL (internal/storage/dbstore.go:50), which PostgreSQL refuses, so that with that driver, which the server allows, a get fails.
- Creation of organisations and modules through the RPC services: they make the same insertions, several to a request.
- Token rows with equal IDs: a revocation here deletes all of the caller's tokens of an ID, as the statement in the code does.
- Deleting a module and changing its visibility: no handler calls them. Nor does any handler collect expired tokens; that is modelled all the same.
- The fields of responses other than commit IDs, label rows and file lists; the response to a re-push names the current caller where the stored row names the first.
- Search.ListingsAgree: how a back end orders modules of one creation time is not modelled.
- Regular expressions other than escaped queries: `Search.ReadLiteral` tells which patterns stand for one text, and gives no meaning to the others.
