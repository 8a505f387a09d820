# yagpdb-custom-commands, modelled in Dafny

This project models three parts of the repository and proves the properties they exist for.

**The yagmin minifier** (`tools/emulator/cmd/yagmin`) as a transformation that keeps a command's meaning.
`Syntax` has the template trees and `Interp` their execution as `internal/yagtemplate/exec.go` does it: the
variable stack with `:=`, `=` and the range's own assignment, branches, loops, break, continue, return, try and
catch, `{{template}}`, `execTemplate` with literal or computed names, recursion, and an operation budget that
may end the run anywhere. An oracle answers for everything outside the template: what functions return or
whether they fail, which values are true, what a range iterates over, how a value prints. The renaming is proved
for every oracle, the whitespace pass for every oracle whose functions do what the pass cites of YAGPDB's.
`Renaming` and `RenameRuns` cover the renaming, `Renamer` the naming itself, `Whitespace`, `Silence`, `DropRuns`
and `Response` the whitespace pass and why it is safe, `Linearize`, `DropFromMain` and `Analyze` its loops,
`Everywhere` and `Leftovers` what it leaves behind, `Minify` the two together, `Limits` the files the pass is not
safe on. `Prove` is yagmin's own comparison of two renamed texts.

**The mock services**, each a fast or stateful form against a simple one: the LIKE matcher (`Like` on bytes,
`LikeText` on characters; section 9.7.1 of the PostgreSQL documentation, section 3 of RFC 3629), the
two-column database (`Database` the table, `MockDB` the two maps), the argument splitter and its inverse
(`Args`, `Triggers`), the snapshot diff (`LineDiff`), the edit distance (`Hints`).

**Protocols**: the interaction shared by a tree of `execCC` runs (`Interactions` what each call does to the
state, `Effects` what it does for certain, said a second time field by field, `Protocol` what every run keeps,
`Engine` the objects that are shared and the methods that update them), the search for database calls in loops
(`LoopCheck`), and the panel form written and read back (`Deploy`, `ReadBack`). `Basics` holds what several modules share.

Where code and comments disagree the model follows the code:

- `setTopVar` writes to the top of the stack, so a range that assigns (`{{range $x = ...}}`) overwrites
  whatever variable is there. The whitespace pass counts it as binding `$x` only, so on such a file its
  container variables may not hold containers. `Limits.AssigningRangeChangesResponse` gives a file whose
  response changes.
- `allDefines` is the string `*`, which may also be a define's name; a computed `execTemplate` is then taken for
  a call of that define. `Limits.StarDefineChangesResponse` gives a file whose response changes.
- `matchText` steps by character after a wildcard and gives up early, which is right for patterns of whole
  characters. On patterns of any bytes `Like.JudgeIsLike` says exactly which lose matches.
- `SplitArgs` drops spaces while its buffer is empty, inside quotes too, so the round trip promised at
  `JoinArgs` is exact only when no argument starts with a space (`Args.RoundTripIff`).
- `lineDiff` prints its mark of a cut at exactly 40 changed lines as well, when nothing is cut.
- `walkTry` marks the stack when it is done, not before, so variables of a try stay on it; `Interp` does the same.

Verify with `dafny verify dfyconfig.toml`.

## Model

| member | source | states |
|---|---|---|
| Minify.MinifyPreservesResponse | tools/emulator/cmd/yagmin/minify.go:52-85 | On every file in which no define is named * and no tree that binds a container variable has an assigning range, in any world whose functions behave as documented, for every dot, history and operation budget: the minified command ends the same way (error or not) with the same calls, arguments, messages and operations, and its response trims to the same text |
| Minify.Minify | tools/emulator/cmd/yagmin/minify.go:52-85 | What minify makes of the trees: variables renamed by rank, then the whitespace pass with its analysis of the renamed trees; of these only blank texts go, and what stays is as tight as DropWhitespace says |
| Minify.RenamedWellBehaved | tools/emulator/cmd/yagmin/minify.go:370-383 | Renaming keeps what the whitespace pass asks of a file: define names, range declarations, and which trees bind container variables |
| Minify.NodesBoundsRenamed | tools/emulator/cmd/yagmin/minify.go:370-383 | A renamed tree binds the same variables under their new names, constructors' values where the tree does |
| RenameRuns.RenamingPreservesRuns | tools/emulator/cmd/yagmin/minify.go:370-383 | A run of the renamed trees is the run of the original ones: same end, effects, operations and output, for every world, dot and budget, recursion and computed template names included |
| RenameRuns.WalkListRenamed | tools/emulator/internal/yagtemplate/exec.go:318-362 | Walking a renamed list under the renamed variable stack mirrors walking the list: same signal and output, and the new stack is the old one renamed |
| RenameRuns.EvalPipeRenamed | tools/emulator/internal/yagtemplate/exec.go:634-662 | The same of a pipeline, whose := pushes and whose = updates |
| RenameRuns.WalkRangeRenamed | tools/emulator/internal/yagtemplate/exec.go:439-563 | The same of a range, which sets its variables at the top of the stack every round |
| Renaming.SetVarRenamed | tools/emulator/internal/yagtemplate/exec.go:75-83 | = on the renamed stack updates the renamed innermost binding, and fails exactly when the original does |
| Renaming.VarValueRenamed | tools/emulator/internal/yagtemplate/exec.go:91-99 | A lookup in the renamed stack finds the innermost binding the original finds |
| Renaming.LookupRenamed | tools/emulator/internal/yagtemplate/exec.go:602-624 | Templates are found under the same names, with renamed trees; define names are untouched |
| Renaming.NewNameInjective | tools/emulator/cmd/yagmin/minify.go:202-240 | The map with bare $ left alone keeps different variables different |
| Renamer.NewRenamer | tools/emulator/cmd/yagmin/minify.go:208-240 | Every variable of the trees gets the short name of its rank (uses, then first appearance); the map is injective, total on the trees and never gives $ |
| Renamer.CountNames | tools/emulator/cmd/yagmin/minify.go:208-225 | The loop's maps hold every variable's uses and number them by first appearance; bare $ is not counted |
| Renamer.InsertName | tools/emulator/cmd/yagmin/minify.go:230-235 | A name placed by comparing counts and first appearances is placed by the naming order |
| Renamer.NameInOrder | tools/emulator/cmd/yagmin/minify.go:237-242 | The short names handed out along the sorted list are those of the ranks |
| Renamer.SortNames | tools/emulator/cmd/yagmin/minify.go:226-235 | The variables sorted by falling use count, ties by first appearance, each once |
| Renamer.ShortNameInjective | tools/emulator/cmd/yagmin/minify.go:246-254 | The 2756 short names are pairwise different |
| Renamer.RankedIsFaithful | tools/emulator/cmd/yagmin/minify.go:208-254 | Naming by rank is injective, total and keeps clear of bare $ |
| Renamer.NamingIsUnique | tools/emulator/cmd/yagmin/minify.go:208-240 | The result does not depend on the order a map is walked in |
| Renamer.RankNamingIsShortest | tools/emulator/cmd/yagmin/minify.go:208-254 | No naming of the variables by different non-empty words over the 52 letters prints their uses in fewer letters |
| Analyze.ContainerVariables | tools/emulator/cmd/yagmin/whitespace.go:281-314 | A variable is a container variable exactly when something binds it and everything that binds it anywhere is a dict, sdict or cslice |
| Analyze.PrintingTrees | tools/emulator/cmd/yagmin/whitespace.go:144-211 | The changed-loop ends, with the least set of printing trees closed under the calls |
| Analyze.PrintingRound | tools/emulator/cmd/yagmin/whitespace.go:144-211 | One round adds only trees every closed set holds, and says it changed nothing exactly at a closed set |
| Analyze.DropWhitespace | tools/emulator/cmd/yagmin/whitespace.go:118-139 | The pass's analysis is the container set and the least printing set, and every tree becomes what the rule for its case makes of it. In the words of the trees alone: nothing but blank texts goes; a file without a printer and without a sender keeps no blank text; in any file a blank text that stays in a main tree that runs by itself has a possible printer on both sides, one in a loop may have it in the loop; every other tree stays |
| Leftovers.DroppingTidies | tools/emulator/cmd/yagmin/whitespace.go:118-139 | The same of the rule DropTrees, for any analysis of a file |
| Leftovers.DropListIsTight | tools/emulator/cmd/yagmin/whitespace.go:456-493 | In document order, a blank text that dropFromMain leaves has counted printers before and behind it, and a loop with a blank text prints or stands between printers |
| Leftovers.CountIff | tools/emulator/cmd/yagmin/whitespace.go:395-452 | The pass counts a printer in a list exactly when a node of it may print: a text with something to see, an action that declares nothing and is headed neither by one of the twelve functions nor by Set or Del on a built variable, or a call that may run a printing tree |
| Leftovers.PrintsIff | tools/emulator/cmd/yagmin/whitespace.go:144-211 | A tree is held to print exactly when a chain of calls leads from it to a tree with a printer of its own |
| Leftovers.ContainersAreBuilt | tools/emulator/cmd/yagmin/whitespace.go:281-314 | The container variables are those that some pipeline anywhere binds, all of them to constructors, and no range |
| Everywhere.NodesGathered | tools/emulator/cmd/yagmin/whitespace.go:144-211 | The names a list calls, the names it sends and its bindings are those of the nodes and pipelines in it, wherever they stand |
| Silence.WalkListKept | tools/emulator/cmd/yagmin/whitespace.go:144-252 | In every run, from every stack whose container variables hold containers, they still do after any list, and a list with no printer writes only blanks, recursive and computed calls included |
| Silence.RunTreeKept | tools/emulator/cmd/yagmin/whitespace.go:216-226 | Running a tree the analysis calls silent writes only blanks in any run |
| Silence.EvalCommandKept | tools/emulator/cmd/yagmin/whitespace.go:240-252 | A command the pass calls silent evaluates to the empty text, and a constructor to a container |
| Silence.VarValueHolds | tools/emulator/cmd/yagmin/whitespace.go:281-314 | Reading a container variable gives a container in every reachable stack |
| Response.DroppingPreservesResponse | tools/emulator/cmd/yagmin/whitespace.go:118-139 | The file without the dropped blanks ends every run the same way, with the same calls, sent messages and operations, and a response that trims to the same text; a tree that binds no container variable may hold any range |
| Response.DropListNear | tools/emulator/cmd/yagmin/whitespace.go:456-493 | At every point of every run, wherever an error, break, continue or return stops it, the two outputs differ only in blanks at an end that is trimmed |
| Response.SilentRun | tools/emulator/cmd/yagmin/whitespace.go:118-139 | When nothing prints, every blank can go from every tree |
| Response.MainRun | tools/emulator/cmd/yagmin/whitespace.go:456-493 | When no tree can re-enter the main one, its droppable blanks can go |
| DropFromMain.LoopDecided | tools/emulator/cmd/yagmin/whitespace.go:437-452 | All blanks of an outermost loop share one decision: they go when the loop prints nothing and nothing before it or nothing after it prints, wherever the loop stands |
| DropFromMain.BranchDecided | tools/emulator/cmd/yagmin/whitespace.go:431-435 | Each arm of an if or a with is decided on its own place among the printers, the other arm's included, wherever the branch stands |
| Linearize.Linearizer.List | tools/emulator/cmd/yagmin/whitespace.go:395-429 | Appends the list's printers and its blanks, each blank with its place among them, in document order |
| Linearize.Linearizer.Visit | tools/emulator/cmd/yagmin/whitespace.go:395-429 | The same of one node |
| Linearize.Linearizer.Arms | tools/emulator/cmd/yagmin/whitespace.go:431-435 | The same of a node's two arms, in order |
| Linearize.Linearizer.Loop | tools/emulator/cmd/yagmin/whitespace.go:439-452 | Inside the outermost loop every blank carries the loop's whole event range |
| DropFromMain.DecideItems | tools/emulator/cmd/yagmin/whitespace.go:465-480 | Each blank's decision, read off a table of printer counts, is the rule: nothing prints in its range, and nothing before it or nothing after it |
| DropFromMain.DropFromMain | tools/emulator/cmd/yagmin/whitespace.go:456-493 | The flat pass over events and items drops what the structural rule DropList drops |
| DropFromMain.FilterDecided | tools/emulator/cmd/yagmin/whitespace.go:456-493 | Decisions on counts of the flat event list are decisions on the tree, wherever the stretch stands |
| Limits.AssigningRangeChangesResponse | tools/emulator/internal/yagtemplate/exec.go:86-88 | A file whose range assigns ($ = cslice ...) overwrites a container variable with a modal builder, and dropping its blank changes the response, in a world that answers as the engine does |
| Limits.StarDefineChangesResponse | tools/emulator/cmd/yagmin/whitespace.go:94-95 | A define named * is taken for the mark of a computed name, and dropping a blank of a file that runs itself once changes the response, in the same world |
| Prove.SameUpToRenaming | tools/emulator/cmd/yagmin/prove.go:134-161 | The two-map loop accepts exactly when the texts pair up: the same text outside the variable tokens, one-to-one token pairs, changed ones short |
| Prove.AcceptsExactlyRenamings | tools/emulator/cmd/yagmin/prove.go:117-161 | It accepts a text if and only if one injective map of the tokens, changing them only to short names, renders it |
| Prove.RenderLexes | tools/emulator/cmd/yagmin/prove.go:117-122 | A rendered text has exactly the renamed tokens and the old text between them |
| Prove.LexText | tools/emulator/cmd/yagmin/prove.go:117-122 | A text is its tokens and what stands between them |
| Prove.LexIsOnly | tools/emulator/cmd/yagmin/prove.go:117-122 | A text is cut in one way: into variables as the pattern has them, leftmost and longest, and gaps that hold no start of one and go on with none |
| Prove.FindAllLex | tools/emulator/cmd/yagmin/prove.go:134-136 | The leftmost-longest matches cut the text as its pieces do |
| Like.MatchText | tools/emulator/internal/state/db.go:452-531 | The loops, the fast path and the recursion in the scan give the verdict Judge |
| Like.AdvanceChar | tools/emulator/internal/state/db.go:534-540 | One byte and its continuation bytes |
| Like.JudgeRight | tools/emulator/internal/state/db.go:452-531 | What each verdict claims, on every text and pattern: true matches; the error means a trailing unpaired backslash; true is said of every match unless the pattern loses matches; and on patterns as UTF-8 gives them false does not match and abort says no later start does either |
| Like.JudgeIsLike | tools/emulator/internal/state/db.go:452-531 | On a pattern the verdict is true exactly on the texts that are LIKE it, for all texts, if and only if the pattern matches nothing or holds no % that may start over before a % followed by the inside of a character |
| Like.VerdictsAreRight | tools/emulator/internal/state/db.go:436-451 | The claims of all verdicts, abort's about every later start included, hold for all texts if and only if no wildcard of the pattern is followed by the inside of a character, or it matches nothing |
| Like.ReachingMatches | tools/emulator/internal/state/db.go:496-531 | A pattern that does not end in an escape and has no _ before the inside of a character matches a text |
| Like.EscapeErrorIff | tools/emulator/internal/state/db.go:457-495 | Some text raises the escape error if and only if the pattern ends in an unpaired backslash and no _ before it is followed by the inside of a character |
| Like.ErrorNeedsEscape | tools/emulator/internal/state/db.go:440-441 | A pattern that does not end in an escape never raises it, well-formed or not |
| Like.InsideOfCharacterIsLost | tools/emulator/internal/state/db.go:496-504 | On a pattern whose wildcard is followed by the inside of a character a match is lost |
| Like.PlanRisk | tools/emulator/internal/funcs/database.go:292-310 | Fires exactly on a pattern with an unescaped wildcard that ends in an unpaired backslash |
| Like.ExactMatch | tools/emulator/internal/funcs/database.go:292-310 | A pattern without an unescaped wildcard matches a single text at most |
| LikeText.JudgeIsTextLike | tools/emulator/internal/state/db.go:423-430 | On UTF-8, for every text and pattern of characters, matchText is true exactly when LIKE holds over characters, and never fails |
| LikeText.MatchesIsLike | tools/emulator/internal/state/db.go:447-451 | Stepping by bytes and by characters gives the same relation: characters are a prefix code |
| LikeText.PatternWellFormed | tools/emulator/internal/state/db.go:423-430 | Every pattern written in characters is well-formed and ends in no escape |
| Database.MakeKeyInjective | tools/emulator/internal/state/db.go:70-72 | No two users and keys share a composite key, whatever colons a key holds |
| Database.AllSound | tools/emulator/internal/state/db.go:99-216 | Over any writes IDs are distinct, below the next one and never given out again |
| Database.ApplySound | tools/emulator/internal/state/db.go:99-216 | An overwrite, an increment or a deletion keeps every other row's ID and a row's own |
| Database.ReadsLastStart | tools/emulator/internal/state/db.go:99-216 | Over any writes, every row a read finds has a last start, a set or an increment of an absent or expired row; a number reads as what it gave plus all later increments in order, anything else as the start left it, and it has not expired |
| Database.ReadsLastSet | tools/emulator/internal/state/db.go:55-72 | Over any writes that do not set, delete or outlive it, a number reads as its last set value plus all later increments in order, and any other value as it was set |
| Database.ReadsUntilExpiry | tools/emulator/internal/state/db.go:55-90 | A value set for a time reads until that time is past and not after, and without one it always reads |
| Database.IncrementsAddUp | tools/emulator/internal/state/db.go:181-216 | A row's increments give the sum of the amounts, infinities of both signs or a NaN giving NaN, whatever their order |
| Database.WritesStampRows | tools/emulator/internal/state/db.go:99-216 | A set keeps ID and creation time of the row it overwrites, an increment restarts an expired row's creation time, and both stamp the update |
| Database.OrderIsTotal | tools/emulator/internal/state/db.go:279-286 | value_num then ID is a strict total order on entries, NaN included, and the other direction is its opposite |
| Database.ArrangesRuns | tools/emulator/internal/state/db.go:279-286 | Which end comes first: descending, numbers fall and equal ones have falling IDs, NaN first and infinities at their ends; ascending the opposite; by ID they rise, or fall when descending |
| Database.ArrangementIsUnique | tools/emulator/internal/state/db.go:279-286 | One sorted list of the entries exists, so the order a map is walked in does not show |
| Database.RanksAddUp | tools/emulator/internal/state/db.go:291-314 | The ascending and the descending rank of a present entry add up to the count plus one; an absent one has rank 0 in both |
| Database.PagesConcatenate | tools/emulator/internal/state/db.go:344-353 | Consecutive pages make up the whole list |
| MockDB.MockDB.Get | tools/emulator/internal/state/db.go:75-90 | The table's row as a read gives it, or nothing when it is absent or expired |
| MockDB.MockDB.SetWithExpiry | tools/emulator/internal/state/db.go:99-147 | The table after the write, nothing changed when the value does not serialize; both maps stay the table |
| MockDB.MockDB.Incr | tools/emulator/internal/state/db.go:181-216 | The table after the increment: a new row, an added value_num, or a restarted one without expiry |
| MockDB.MockDB.Del | tools/emulator/internal/state/db.go:150-161 | The table without the row, and whether it was there |
| MockDB.MockDB.DelByID | tools/emulator/internal/state/db.go:164-176 | The table without the one row of the user and ID, whatever order the map is walked in |
| MockDB.MockDB.GetPattern | tools/emulator/internal/state/db.go:220-248 | A page of the user's unexpired matching rows, IDs rising or, descending, falling, as they read; an error exactly when a candidate key raises it |
| MockDB.MockDB.TopEntries | tools/emulator/internal/state/db.go:253-276 | The rows skip to skip + limit of every user's unexpired matching rows in falling value_num, then ID, or rising when ascending |
| MockDB.MockDB.RankOf | tools/emulator/internal/state/db.go:291-314 | The row's place among the matching rows, from the greatest value_num or, ascending, from the least; 0 when it is not there |
| MockDB.MockDB.CountEntries | tools/emulator/internal/state/db.go:380-403 | How many unexpired rows match |
| MockDB.MockDB.DelMultiple | tools/emulator/internal/state/db.go:319-342 | Removes the rows skip to skip + limit of the matching ones from the end asked for, expired ones included, and nothing else; a failing match removes nothing |
| MockDB.MockDB.Collect | tools/emulator/internal/state/db.go:297-309 | The walk over the map gathers exactly the matching rows, each once, or fails exactly when a candidate fails |
| MockDB.SortedArranges | tools/emulator/internal/state/db.go:279-286 | Sorting arranges the rows whatever order they come in |
| Args.SplitArgs | tools/emulator/internal/funcs/args.go:360-434 | The loop over buffer, escape flag and container is the machine Split |
| Args.TypedSplits | tools/emulator/internal/funcs/args.go:360-434 | A typed message of words and of texts in either quote, escaped inside, with any spaces between and around, splits into exactly these, a quoted one less its leading spaces and marked with its quote |
| Args.UnclosedQuote | tools/emulator/internal/funcs/args.go:360-434 | A quote that is never closed stays in front of its text, which is one argument and no group; spaces alone after it give nothing |
| Args.Backslashes | tools/emulator/internal/funcs/args.go:369-400 | A backslash before a space keeps the word together, before another is one, before a quote that would open a group is dropped, before anything else stays, and at the end goes |
| Args.JoinArgs | tools/emulator/internal/funcs/args.go:439-450 | The quoted and escaped parts joined by spaces |
| Args.SplitJoin | tools/emulator/internal/funcs/args.go:436-438 | Splitting joined arguments gives each back without the spaces it starts with, marked as quoted exactly when it needed quotes |
| Args.RoundTripIff | tools/emulator/internal/funcs/args.go:436-438 | The round trip the comment promises holds if and only if no argument starts with a space |
| Args.LeadingSpaceIsLost | tools/emulator/internal/funcs/args.go:381-388 | The argument that shows it |
| Triggers.TriggerRoundTrip | tools/emulator/internal/runtime/trigger.go:365-454 | A Command, Starts with or Contains message built from arguments triggers; it gives them back less their leading spaces, hence exactly when none has any, unless a Command takes a mention of another length than the prefix before its text |
| Triggers.MatchesIff | tools/emulator/internal/runtime/trigger.go:365-454 | Which messages trigger, and which do not, letter case as set: ExactMatch the text and no more, Starts with at the start, Contains at its first place, and a Command after the prefix or a mention of the bot with a space or nothing behind it |
| Triggers.MentionIsTaken | tools/emulator/internal/runtime/trigger.go:378-381 | The message that shows it: a Command whose text looks like a mention loses an argument |
| LineDiff.Table | tools/emulator/internal/loader/snapshot.go:307-322 | Every cell holds the longest common subsequence length of the two rests |
| LineDiff.LcsIsLongest | tools/emulator/internal/loader/snapshot.go:307-322 | That number is the length of some common subsequence and of none longer |
| LineDiff.WalkIsShortest | tools/emulator/internal/loader/snapshot.go:324-340 | The walk rebuilds both texts and changes as few lines as any script that turns one into the other |
| LineDiff.Diff | tools/emulator/internal/loader/snapshot.go:303-344 | The output is the walk's changes in order, the first 40 of them, with the mark of a cut at 40 |
| Hints.EditDistance | tools/emulator/internal/runtime/hints.go:113-131 | The two swapped rows compute the recursive distance |
| Hints.DistanceIsLeastCost | tools/emulator/internal/runtime/hints.go:113-131 | The distance is the least number of edits of any script from one text to the other |
| Hints.Closest | tools/emulator/internal/runtime/hints.go:94-111 | A name equal but for case, the first such; else the first name of least distance below the bound, or nothing exactly when none is below it |
| Protocol.OneFirstAnswer | tools/emulator/internal/runtime/interactions.go:255-290 | Over every run and its whole execCC tree, an interaction that starts unanswered gets at most one message, update or modal, always first, then only followups, and counts as answered exactly when it got something |
| Protocol.OneDeferredEdit | tools/emulator/internal/runtime/interactions.go:512-547 | One that starts deferred gets none of those and at most one edit of its deferral, which is what ends the deferral; a failed deferral gets nothing |
| Protocol.OnlyFollowups | tools/emulator/internal/runtime/slash.go:835-866 | One that starts answered, as a delayed run may find it, gets followups only |
| Protocol.AnswersAreSent | tools/emulator/internal/runtime/interactions.go:403-417 | Every answer of a run and its tree holds the ID of a message that was sent, as ephemeral as the answer, or the component's own message when it edits that |
| Protocol.SendResponseKeeps | tools/emulator/internal/runtime/interactions.go:339-398 | Whatever is refused or counted, a sendResponse drives the interaction's automaton, numbers what it sends without a gap, links its answer to a message sent, and records none after a failed deferral |
| Protocol.UpdateMessageKeeps | tools/emulator/internal/runtime/interactions.go:425-463 | The same of an updateMessage, whose answer holds the component's message |
| Protocol.SendModalKeeps | tools/emulator/internal/runtime/modals.go:374-441 | The same of a modal, which the automaton takes as the first answer only |
| Protocol.RespondKeeps | tools/emulator/internal/runtime/interactions.go:512-547 | The same of a run's output: the first answer, the deferral's one edit or a followup |
| Protocol.ScheduleKeeps | tools/emulator/internal/runtime/schedule.go:73-98 | Scheduling keeps unique keys unique, the protocol and the numbers |
| Protocol.MergeKeeps | tools/emulator/internal/runtime/engine.go:1116-1125 | What a child keeps from its own start, its caller keeps from the call on |
| Protocol.DoReach | tools/emulator/internal/runtime/limits.go:271-330 | With -strict no call behind its counter raises the number of runs the tree may still come to |
| Protocol.FlagsAreMonotone | tools/emulator/internal/runtime/interactions.go:512-547 | RespondedTo never falls and Deferred never rises over any stretch of a run |
| Protocol.WarningsAreExact | tools/emulator/internal/runtime/interactions.go:563-574 | However the interaction starts, the two warnings at the end of a run are given exactly when it got no answer at all, and when its deferral was never filled |
| Protocol.PrintingAnswers | tools/emulator/internal/runtime/engine.go:176-196 | A run that prints and keeps its response leaves the interaction answered and no deferral open |
| Protocol.ExecuteKeeps | tools/emulator/internal/runtime/engine.go:1007-1136 | Every run, with the runs it executes, drives the interaction's automaton, numbers its messages without a gap and keeps unique keys unique |
| Effects.DoHasEffect | tools/emulator/internal/runtime/engine.go:1007-1136 | What each call does to every field and whether it fails, said without the model's own steps: a sendResponse that nothing refuses adds one message and one answer, a Followup once answered; so for updateMessage, sendModal, sendMessage, scheduleUniqueCC, cancelScheduledUniqueCC and a delayed execCC; an immediate, mapped execCC below depth 2 and within its limit runs its child on the shared state, adds its runs, and puts its answers, messages and output after the caller's; a refused call changes the counters alone |
| Effects.ExecuteEnds | tools/emulator/internal/runtime/engine.go:176-223 | A run is a sequence of states, each call having its effect on the one before, until one fails outside a try; then its output answers, fills the deferral or follows up, unless it is deleted or the error is shown in its place |
| Effects.ChildrenRun | tools/emulator/internal/runtime/engine.go:1007-1136 | Every immediate execCC within the limit adds at least one run, until a call outside a try may end the run |
| Effects.ChildIsHeard | tools/emulator/internal/runtime/engine.go:1110-1125 | A child that prints and keeps its output leaves its message as the caller's last one and, with an interaction, its answer as the last answer |
| Effects.WithoutUniqueRemoves | tools/emulator/internal/runtime/schedule.go:101-106 | Cancelling keeps, in order, exactly the runs of another command or another key |
| Protocol.MessagesAreNumbered | tools/emulator/internal/runtime/context.go:582-632 | The merged messages of the whole tree are numbered 1, 2, 3, ... in their order |
| Protocol.UniqueKeysKept | tools/emulator/internal/runtime/schedule.go:73-106 | At most one scheduled run per command and unique key, over the whole tree |
| Protocol.WithoutUniqueKeeps | tools/emulator/internal/runtime/schedule.go:101-106 | Cancelling removes exactly the runs of the command and key |
| Protocol.TreeIsBounded | tools/emulator/internal/runtime/limits.go:151-175 | With -strict one top-level run comes to at most 3 runs, 111 with premium |
| Protocol.ExecuteRuns | tools/emulator/internal/runtime/engine.go:1023-1025 | A run at any depth comes to at most 1 + n times the runs a level deeper, n being the runcc limit |
| Engine.Context.CancelScheduled | tools/emulator/internal/runtime/schedule.go:101-106 | The shared list without the runs of the command and key |
| Engine.Context.Schedule | tools/emulator/internal/runtime/schedule.go:73-98 | The run appended with the interaction's state, after the runs it replaces are gone; nothing changes when the data does not encode |
| Engine.Context.RunChild | tools/emulator/internal/runtime/engine.go:1037-1121 | A child with its own context over the same interaction, counter and schedule, and its effects after the caller's |
| Engine.Context.Execute | tools/emulator/internal/runtime/engine.go:176-223 | The run's calls one after the other, each with its effect, until one fails outside a try, then the output and the error settings |
| Engine.RunCommand | tools/emulator/internal/runtime/engine.go:176-223 | A command's own run on the shared objects: its calls have their effects one after the other and its output its place; every immediate execCC within the limit runs its command; over it and all the runs it executes the interaction gets one first answer and then followups, or one edit of its deferral; respondedTo never falls and deferred never rises; every answer is a message sent; messages are numbered 1, 2, 3, ...; unique keys stay unique; the warnings are exact; with -strict there are at most 3 runs, 111 with premium |
| Engine.Context.Call | tools/emulator/internal/runtime/limits.go:271-330 | A call through withLimits has its effect on the shared objects and the run's own fields, and counts against its limits, no more and no less |
| LoopCheck.FindIff | tools/emulator/internal/runtime/loopcheck.go:65-83 | On any call graph, cycles included, the search gives a function that some chain of calls reaches, and gives none exactly when no chain reaches one |
| LoopCheck.FindIsRight | tools/emulator/internal/runtime/loopcheck.go:65-83 | Whatever was marked before, a search that finds nothing leaves marked templates that use no database function and call only marked ones |
| LoopCheck.FlaggedIff | tools/emulator/internal/runtime/loopcheck.go:127-137 | A template is flagged exactly when the body of a range or while of it, or a while's condition, holds a database call, or calls a template from which a chain of calls reaches one |
| LoopCheck.EventsRepeat | tools/emulator/internal/runtime/loopcheck.go:85-123 | The walk's in-loop flag says what the tree says: a call is met as one that may repeat exactly when a loop of the tree holds it |
| LoopCheck.LoopWalker.Walk | tools/emulator/internal/runtime/loopcheck.go:85-123 | The walk meets the list's calls in order, each with whether it may repeat |
| LoopCheck.LoopWalker.WalkNode | tools/emulator/internal/runtime/loopcheck.go:85-123 | The same of one node |
| LoopCheck.LoopWalker.WalkPipe | tools/emulator/internal/runtime/loopcheck.go:139-157 | The same of a pipeline |
| LoopCheck.LoopWalker.WalkArg | tools/emulator/internal/runtime/loopcheck.go:161-173 | The same of an operand |
| LoopCheck.LoopWalker.CalledTemplate | tools/emulator/internal/runtime/loopcheck.go:127-137 | The call is recorded, and flagged when it may repeat and reaches a database function |
| LoopCheck.LoopWalker.DbFuncIn | tools/emulator/internal/runtime/loopcheck.go:65-83 | The search with its shared marks |
| LoopCheck.FindLoopDBCalls | tools/emulator/internal/runtime/loopcheck.go:31-50 | Every template's findings in order: a database function is reported exactly when some template's loop holds it, and a called template exactly when some template's loop calls it and a chain of calls from it reaches a database function, which it names |
| Deploy.ApplyStructure | deploy/deploy.js:709-757 | Throws exactly when the header names a type or group the panel lacks; else posts the entries Applied |
| Deploy.KeepEntries | deploy/deploy.js:726-739 | The form's own entries in order, the first entry of each managed field with the header's value, later ones and the replaced rows gone |
| Deploy.AddMissing | deploy/deploy.js:740 | The managed fields the form had no entry of, in their fixed order |
| Deploy.PushSlash | deploy/deploy.js:743-754 | The slash rows in the panel's field names, subcommands first |
| ReadBack.LiveSlashRows | deploy/deploy.js:557-610 | The tables of rows and subcommands the loop builds, read in key order; what comes out is what SlashIsRead says |
| ReadBack.SlashIsRead | deploy/deploy.js:540-612 | On any form, whatever it repeats or leaves out: the flat options, or the subcommands when the form uses them, are exactly the ones with a name or a description (a subcommand also with a row), by rising index; a field is its values joined by commas, a subcommand's text its last value, and a filled field no header can express marks the row |
| Deploy.ValueIsThere | deploy/deploy.js:696-702 | A label has a value exactly when the panel has the label, so a header throws exactly when it names one the panel lacks |
| ReadBack.WriteReadsBack | deploy/deploy.js:627-757 | For a validated header and one-to-one labels, writing and reading back finds no difference |
| ReadBack.DiffIsExact | deploy/deploy.js:627-676 | Each difference is reported exactly when the form's field holds another value than the header writes, and the rows' exactly when a slash command's rows read as others |
| ReadBack.NoDiffIff | deploy/deploy.js:627-676 | With one-to-one labels no difference is reported if and only if every managed field of the form holds the header's value and a slash command's rows read as the header's |
| ReadBack.NoDiffKeepsFields | deploy/deploy.js:627-757 | Writing a header that shows no difference leaves every managed field's value as it was |
| ReadBack.ExtraIsADifference | deploy/deploy.js:557-610 | A filled field of a row that no header can express is reported as a difference |
| ReadBack.EnablingReads | deploy/deploy.js:709-740 | is_enabled is written, taken off or left as it was, as asked |
| ReadBack.SlashReads | deploy/deploy.js:557-610 | The slash rows read back are the header's, row for row |
| ReadBack.ScalarReads | deploy/deploy.js:709-740 | Every managed field reads back as the header's value, whatever duplicates the form had |
| ReadBack.UnmanagedSurvive | deploy/deploy.js:704-708 | Every entry the header does not set survives, in order, and none is added: what both forms hold at rising positions, exactly those of the other names, is the same |
| ReadBack.LiveNumbers | deploy/deploy.js:627-645 | The defer mode is read as one of the four, the interval only from digits |
| ReadBack.ApplyIsIdempotent | deploy/deploy.js:709-757 | Applying a header twice gives what applying it once gives |
| Deploy.LabelBack | deploy/deploy.js:525-529 | With one-to-one labels a value's label is the label it was written for |

## Left out

- Response.DroppingPreservesResponse: asks that no define is named `*` and that a tree with a range that assigns binds no container variable. Both can be read off the file; each is needed, as the two files of `Limits` show, but a file that breaks one need not change its response, so the condition is sufficient and not necessary.
- Minify.MinifyPreservesResponse: asks the same of the file (`WellBehaved`), and of the functions what the pass's own comments cite of YAGPDB: the silent ones return nothing, the constructors containers.
- Triggers.TriggerRoundTrip: says that a Command message triggers, but not which arguments come back, when a mention of another length than the prefix is taken before its text; `MentionIsTaken` shows that one may be lost. Regex triggers are not part of this model.
- Protocol.TreeIsBounded: holds with -strict only; without it the limit outside a try is a warning and the run goes on.
- ReadBack.WriteReadsBack: a header's rows are named and hold no field a header cannot express, and flat options come without subcommands, as validation makes sure.
- Renaming writes names into the parse tree in place, and the whitespace pass filters `list.Nodes` in place; trees are values here, so sharing of nodes between trees is not captured.
- What the trees print as (`printNodes`) and parsing are not part of this model, so neither is the final re-parse in `minify`.
- The 25k output cap, the length limits of responses and sources, and error text positions, which minification may change.
- `sendTemplate` runs a tree as a message of its own, as YAGPDB does, on the caller's operation budget; YAGPDB gives it a fresh one, and the emulator's own `sendTemplate` does nothing.
- Texts a run computes are taken as bytes where the engine measures them (1,000,000 at most).
- Values are texts, containers by reference and opaque others; method sets, reflection and type conversion are the oracle's.
- `FindAll` stands for the regular expression engine, `Sorted` for `sort.Slice`, `FindAllStringIndex` and `regexp.FindStringIndex` are taken for their literal patterns only.
- Keys are bytes, times whole numbers, value_num a real, an infinity or NaN: floating point rounding is not captured, and what a non-number's value_num is comes with the value.
- Locks of the database, serialization sizes and guild IDs.
- Message contents, embeds, components, pings, reactions, deletions, pins, roles and file uploads of a run; whether Discord takes a message comes with the call.
- YAGPDB runs an execCC child beside its caller; the emulator, and so the model, runs it inline.
- The order of option fields in `slash_options.` names with leading zeros, and entry names as texts: names come taken apart.
- The header parser and its validation, the DOM and the network in `deploy.js`.
- The line numbers and texts of loop findings.
- Confusables, function lists, embed and component checks, forum posts, tickets, YAML test loading and assertions, linters and Python scripts: thin or line-by-line text work.
