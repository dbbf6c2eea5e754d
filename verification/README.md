# A verified model of the editor engine, the rate limiters and the configuration substituter

The CMS ships the ProseMirror editor as one bundled script (`static/prosemirror.js`). Its core is
a document engine: a compiler from content expressions to automata, an edit operation on document
trees, position maps that follow edits, and an undo history. Around it the CMS has two
sliding-window rate limiters (`src/core/rate_limit.rs`) and a substituter for `${VAR}`
placeholders in its configuration (`src/config/env.rs`). This project models those parts in Dafny
and proves what they promise.

Names in the bundle are minified. The model uses the roles: `mo`, `br` and `go` are the compiler,
the closure and the subset construction; `Ne` is ContentMatch; `y`, `j`, `At` and `x` are Fragment,
Node, ResolvedPos and Slice; `so`, `Ar`, `Rr`, `Et`, `oo` are the helpers of `replace`; `oe`, `ct`
and `H` are StepMap, Mapping and ReplaceStep; `rr` and `Ri` split decorations; `B`, `Ds` and `Ka`
are the rope; `Je` and `ne` are the branch of the history and its items.

## What is modelled

* `content/` — content expressions, their intended language (`Lang`), the language the compiler
  gives them (`Full`), the compiler as a value (`Nfa`) and as the class that patches edges in
  place (`NfaBuilder`), the recursive closure, the subset construction, matching, `fillBefore`,
  and the search for a wrapping.
* `transform/` — one position map with its recovery values, and pipelines of maps with mirrors.
* `document/` — documents and their token strings, resolved positions, `replace` through all of
  its joins, exactly when it succeeds and how it is refused, `slice`, normal documents, replacement
  steps, their inverses and their merging, sets of marks.
* `history/` — the rope, recording and popping events with remapping, what popping does item by
  item, whole runs with changes that are not to be undone among them, and runs of replacement steps.
* `RateLimit.dfy`, `RemoveOverlap.dfy`, `EnvSubst.dfy` — the parts the names say; `Basics.dfy`
  holds what several modules use.

Code that changes things in place or in a loop is a class or a method here, proved against a
function; expressions and recursion are functions. Proofs by induction are written out, so every
lemma switches automatic induction off. An exception of the source is a value: `Outcome` for
replacements, `Result` for substitutions. A clock reading, the environment, the rules of a schema
and the operations on steps are parameters.

## Where the code does something else than it is meant to

* A range `{0,}` loops on the state it starts from. As an alternative of a choice it lets other
  alternatives follow it: `(a{0,} | b)` takes "a b" (`OpenRangeInChoice`).
* A range with its ends reversed still asks for its first number of copies (`ReversedRange`).
* The closure over edges without a type follows states with a single such edge without looking
  whether they were seen. It never ends on a cycle of those; `(a{0,1})*` has one
  (`BoundedRangeInLoop`). `ClosureEndsIff` says exactly when it ends.
* A map and its mirrored inverse lose a position exactly when a range that only deletes touches
  the range before it (`ThereAndBack`, `MirroredPair`, `MirroredSlices`).
* A recovery value packs the index of a range into 16 bits: it comes back exactly while there are
  at most 65536 ranges (`RecoverPacking`).
* The inverse of a replacement can be refused, because compatibility of content is not
  transitive. `UndoSucceedsIff` says exactly when, `JoiningCannotBeUndone` gives a case in a schema
  with content expressions. Where compatibility is transitive it never happens in a valid document
  (`UndoAlways`).
* Two replacements that the history merges into one can both apply where the merged one is refused,
  for the same reason (`MergeSucceedsIff`, `MergeCanBeRefused`, `MergeDoesBoth`).
* With a history depth below two the count of events goes wrong (`CountRightIff`).
* Slicing a rope that is a single leaf with a negative end counts from its end (`SliceExact`).
* With a limit of zero attempts the login limiter only tells whether a key is in its table
  (`ZeroAttempts`, `LoginExactIff`). With a limit of zero requests everything is let through
  (`LetThroughIs`).
* A value that is not harmless can become part of a new placeholder: for each there is a text and
  an environment in which substituting twice is not substituting once (`HarmlessIff`). A harmless
  value may hold a `}`, which is more than one would expect.
* The order in which two marks are added can matter (`OrderMatters`): it does exactly when one
  addition drops all that keeps the other mark out (`OrderIff`).

## Model

| member | source | states |
|---|---|---|
| NfaBuilder.Builder.Expression | static/prosemirror.js:2 | compiling an expression into the automaton under construction pushes and patches exactly the edges that the compiler on values gives |
| NfaBuilder.Builder.Alternatives | static/prosemirror.js:2 | the alternatives of a choice are all compiled from the same state, and their open edges are gathered in order |
| NfaBuilder.Builder.Parts | static/prosemirror.js:2 | the parts of a sequence are compiled one behind the other, each from a new state its predecessor was pointed at |
| NfaBuilder.Builder.Copies | static/prosemirror.js:2 | a range makes its required copies, then its optional ones or a loop |
| NfaBuilder.CompileContent | static/prosemirror.js:2 | the whole automaton with its accepting state, for every parsed expression |
| NfaShape.CompileGrows | static/prosemirror.js:2 | a compiler call adds edges only to its entry state and to new states, and reports every edge it leaves open |
| NfaSound.CompileSound | static/prosemirror.js:2 | states can be given languages that every new edge respects, so no walk spells more than the expression |
| NfaComplete.CompileComplete | static/prosemirror.js:2 | every word of the expression's loops leads back to the entry state, and every word of its exits to an open edge |
| NfaCorrect.AutomatonClosed | static/prosemirror.js:2 | no edge of a finished automaton is left open, and the accepting state has none |
| NfaCorrect.AutomatonExact | static/prosemirror.js:2 | for every expression the automaton accepts the words of Full(e) and no others |
| ContentRegular.RegularLanguage | static/prosemirror.js:2 | outside the failing family, Full(e) is the language the expression is written to mean |
| ContentRegular.OpenRangeInChoice | static/prosemirror.js:2 | `(a{0,} \| b)` accepts "a b", which it does not mean |
| ContentRegular.ReversedRange | static/prosemirror.js:2 | a range with its ends reversed means nothing but is compiled to its first number of copies |
| Closure.Close | static/prosemirror.js:2 | the closure of a state: all states reached by edges without a type, sorted downwards, leaving out those with a single such edge |
| ClosureTermination.ClosureEndsIff | static/prosemirror.js:2 | every closure can be computed exactly when no state starts an endless chain of unchecked hops |
| ClosureTermination.SpinsDecided | static/prosemirror.js:2 | whether there is such a chain shows within as many hops as there are states |
| ContentSteady.SteadyNeverSpins | static/prosemirror.js:2 | a syntactic condition on expressions under which all closures end |
| ContentSteady.BoundedRangeInLoop | static/prosemirror.js:2 | `(a{0,1})*` has a closure that never ends |
| Dfa.MatchType | static/prosemirror.js:1 | the first edge of that type, or none |
| Dfa.MatchFragment | static/prosemirror.js:1 | stepping along the children, stopping at the first that has no edge |
| Dfa.GroupEdges | static/prosemirror.js:2 | the targets of the typed edges of a set of states, one group for each type in the order in which the types first come, without repeats |
| Dfa.OnceIs | static/prosemirror.js:2 | what that order is: each type once, and one before another exactly when it first comes before every edge of the other |
| DfaBuilder.Explorer.Explore | static/prosemirror.js:2 | exploring a set of states makes a state for it and for every set first met, all with the right edges, and ends on cycles |
| DfaBuilder.BuildMatcher | static/prosemirror.js:2 | the construction as a whole stands for the reachable sets of states of the automaton |
| ContentCorrect.SubsetExact | static/prosemirror.js:2 | the built matcher accepts exactly the words the automaton accepts |
| ContentCorrect.CompileMatcher | static/prosemirror.js:2 | compiling an expression and building its matcher gives one that accepts exactly Full(e), and for regular expressions what they mean |
| ContentCorrect.ContentExact | static/prosemirror.js:1-2 | a child sequence ends in a valid state exactly when it is in the expression's language |
| ContentMatch.Search | static/prosemirror.js:1 | the recursive search with its list of seen states: what it finds is a filler, and a state it gives up on leads to none |
| ContentMatch.FillBefore | static/prosemirror.js:1 | a filler is returned exactly when there is one, also on cyclic matchers; it is the first, in the order of the edges, of all fillers that come to no state twice |
| ContentMatch.FillerIff | static/prosemirror.js:1 | what a filler is: made of generatable types, with which the content matches as a whole, to a valid end if one was asked for |
| ContentMatch.FillerCompletes | static/prosemirror.js:1 | the filler followed by the content matches, to a valid end if one was asked for |
| Wrapping.ComputeWrapping | static/prosemirror.js:1 | the chain found really wraps the target, no chain that does is shorter, of those as short it is the first in the order of the edges, and null means there is none |
| Wrapping.WrapsIff | static/prosemirror.js:1 | what wrapping is: no type is a leaf or has required attributes, the first may come at the place, each other is all the content that the one before it needs, and the target may come first in the last |
| Wrapping.ReadChain | static/prosemirror.js:1 | the chain is read off the links in order, outermost type first |
| StepMaps.MapPosition | static/prosemirror.js:4 | the loop with its running difference maps a position with its flags and its recovery value |
| StepMaps.MapTouching | static/prosemirror.js:4 | in or next to a range, from the ranges alone: the four flags, the side it goes to, and the recovery value |
| StepMaps.MapClear | static/prosemirror.js:4 | away from all ranges: moved by what the ranges before it gained, no flag, nothing to recover |
| StepMaps.DeletedIff | static/prosemirror.js:4 | for ranges that do not touch, a position counts as deleted exactly when the token on the side asked for was replaced |
| StepMaps.MapMonotone | static/prosemirror.js:4 | mapping keeps the order of positions, inverted or not, on either side |
| StepMaps.MapSides | static/prosemirror.js:4 | sticking to the left never ends up right of sticking to the right |
| StepMaps.RecoverPosition | static/prosemirror.js:4 | unpacks a recovery value against the ranges before its index |
| StepMaps.RecoverPacking | static/prosemirror.js:4 | packing keeps the index exactly while it is below 65536, and then the offset as well |
| StepMaps.RecoverRoundTrip | static/prosemirror.js:4 | whenever mapping gives a recovery value, the inverted map turns it back into the very position |
| StepMaps.ThereAndBack | static/prosemirror.js:4 | every position that needs no recovery comes back through the inverted map exactly when no touching range only deletes |
| StepMaps.TouchingDeletionLost | static/prosemirror.js:4 | the end of a touching deletion is the position that does not come back |
| Mappings.Mapping.AppendMap | static/prosemirror.js:4 | adds a map at the end, and its pair of mirrors if there is one |
| Mappings.Mapping.GetMirror | static/prosemirror.js:4 | the partner of a map in the flat list of pairs |
| Mappings.Mapping.MapResult | static/prosemirror.js:4 | the loop over the maps, jumping to a mirror where a position can be recovered, with all deletion flags collected |
| Mappings.MirrorIs | static/prosemirror.js:4 | the first pair that holds a map says which its mirror is |
| Mappings.WayEnds | static/prosemirror.js:4 | following a position from map to map, or over the maps up to a mirror that recovers it, the result is where it is behind the last of them |
| Mappings.FlagIff | static/prosemirror.js:4 | each flag comes out set exactly when a map on that way that was not skipped to a mirror sets it |
| Mappings.ThroughMonotone | static/prosemirror.js:4 | a pipeline without mirrors keeps the order of positions |
| Mappings.ThroughSides | static/prosemirror.js:4 | and never lets a position stick further right from the left |
| Mappings.PairsPairUp | static/prosemirror.js:4 | appending the inverses one by one as mirrors pairs every map with its inverse |
| Mappings.MirroredIdentity | static/prosemirror.js:4 | any maps followed by their mirrored inverses are the identity on every position and side, inside deleted ranges too |
| Mappings.MirroredSlices | static/prosemirror.js:4 | the pipeline and its parts around the middle are identities exactly when no map has a touching deletion |
| Mappings.MirroredPair | static/prosemirror.js:4 | the same for one map and its inverse |
| Resolved.Resolve | static/prosemirror.js:1 | a resolved position fits together level by level, and its offset is the position asked for |
| Resolved.FindIndex | static/prosemirror.js:1 | the child a position is in or before, and where that child starts |
| CutContent.AppendTokens | static/prosemirror.js:1 | appending fragments, running texts together, appends their tokens |
| CutContent.CutTokens | static/prosemirror.js:1 | cutting keeps exactly the tokens between two positions, with the elements around them opened and closed |
| JoinTokens.SidesMeet | static/prosemirror.js:1 | the tokens before a resolved position and those after it make up the node's content |
| JoinTokens.TwoWayTokens | static/prosemirror.js:1 | joining at two positions leaves what is before the one and what is after the other |
| ThreeWayTokens.ThreeWaySplice | static/prosemirror.js:1 | joining with an open slice between leaves what is before, the slice between its ends, and what is after |
| Splice.PreparedMid | static/prosemirror.js:1 | wrapping the slice in copies of the ancestors and resolving its ends brings out the slice's own tokens |
| Splice.ReplaceIsSplice | static/prosemirror.js:1 | a successful replacement, through every way of opening the slice, is a splice of the token string |
| DocSlice.SliceOfTokens | static/prosemirror.js:1 | the slice between two positions holds exactly the tokens between them |
| DocSlice.OpenFrom | static/prosemirror.js:1 | the slice is taken from the innermost node around its start that holds its end, and is open from there to both positions |
| Normal.TokensDetermine | static/prosemirror.js:1 | a document whose texts are run together is determined by its tokens |
| Normal.ReplaceNormal | static/prosemirror.js:1 | a replacement keeps documents like that |
| Seams.AddRangeAround | static/prosemirror.js:1 | what is added to content leaves the elements around earlier positions as they were |
| Joins.ReplaceSucceedsIff | static/prosemirror.js:1 | a replacement succeeds exactly when the depths agree, the types around the positions are compatible with those along the slice's open sides, and the elements it closes around the two ends of the new content come out valid |
| Joins.UntouchedIs | static/prosemirror.js:1 | which elements a replacement keeps without looking at their content: as far as both positions are in the same children, and no deeper than to where the open side of the slice begins |
| Seams.AroundIs | static/prosemirror.js:1 | which elements come out valid around an end: those at the levels of the resolved position, from the first one looked at inwards |
| Refusals.RefusalKind | static/prosemirror.js:1 | which error a refusal is: positions outside the document and invalid content are range errors, depths that do not agree and types that do not join are replace errors |
| ReplaceStep.MapFollowsTokens | static/prosemirror.js:4 | the step's map says where every token outside of the replaced stretch went |
| ReplaceStep.UndoRestores | static/prosemirror.js:4 | applying the inverse of an applied step, if it succeeds, gives back the very document |
| Undo.UndoSucceedsIff | static/prosemirror.js:4 | it succeeds exactly when the elements now around the end of the new content are compatible with those that were around the old, and those around the ends of the old content are valid |
| Undo.UndoInValid | static/prosemirror.js:4 | in a valid document only the compatibility matters |
| Schemas.ValidStarts | static/prosemirror.js:1 | valid content begins with a type by which compatibility is decided |
| Schemas.CompatibleIff | static/prosemirror.js:1 | two types are compatible exactly when they are the same or some type can come first in both |
| Joining.ChainMatches | static/prosemirror.js:1-2 | the matchers of the example schema accept what its content expressions mean |
| Joining.JoiningCannotBeUndone | static/prosemirror.js:4 | in that schema, a step from a valid document to a valid one whose inverse is refused |
| Merges.MergeIff | static/prosemirror.js:4 | two steps merge exactly when the second begins where the content of the first ends, or ends where the first began, with slices closed there; what the merged step replaces and puts in is as long as in both together |
| Merges.MergeSucceedsIff | static/prosemirror.js:4 | the merge of two steps does what they do one after the other exactly when the elements around its end are compatible with those along the merged slice and those around the ends of the new content come out valid; otherwise it is refused |
| Merges.MergeDoesBoth | static/prosemirror.js:4 | with transitive compatibility and a valid outcome it always does |
| RefusedMerge.MergeCanBeRefused | static/prosemirror.js:4 | two steps that apply one after the other, with valid documents, and whose merge is refused |
| TransitiveRules.UndoAlways | static/prosemirror.js:4 | with transitive compatibility every replacement in a valid document can be undone |
| Marks.AddToSet | static/prosemirror.js:1 | the lazily copying scan adds a mark, drops what it excludes, or leaves the set alone |
| Marks.AddedIff | static/prosemirror.js:1 | the new mark is in the set then exactly when it was or every mark that excludes it is excluded by it; then the marks it excludes go and all others stay, and otherwise nothing changes |
| Marks.SameTypeReplaced | static/prosemirror.js:1 | a mark of a type that excludes itself takes the place of the one of its type |
| Marks.AddedPlace | static/prosemirror.js:1 | it stands behind all marks of no higher rank, and the others stand in the order they had |
| Marks.AddedKeeps | static/prosemirror.js:1 | a set stays in order of rank and free of exclusions, and holds the new mark unless it was kept out |
| Marks.AddedTwice | static/prosemirror.js:1 | adding a mark a second time changes nothing |
| Marks.OrderIff | static/prosemirror.js:1 | two independent marks can be added in either order exactly when, for each that the set keeps out, the set keeps out the other as well or has a mark that keeps it out and that the other does not drop |
| Marks.OrderMatters | static/prosemirror.js:1 | a set and two independent marks for which the order matters |
| Marks.FittingMarksCommute | static/prosemirror.js:1 | in particular when both fit with all marks of the set |
| RemoveOverlap.InsertAhead | static/prosemirror.js:9 | a piece is put at the first place where it is not after what stands there |
| RemoveOverlap.Remove | static/prosemirror.js:9 | splitting ends, keeps the list sorted, leaves no two spans that overlap partly and no empty one inside another, keeps what every decoration covers, and cuts one exactly where some decoration begins or ends inside it |
| RemoveOverlap.PiecesTile | static/prosemirror.js:9 | the pieces of a decoration tile its interval, each step in exactly one piece |
| RemoveOverlap.SplitMeasure | static/prosemirror.js:9 | each split uses up one place where a span could still be cut |
| Ropes.FieldsRight | static/prosemirror.js:9 | the stored lengths and depths are the real ones |
| Ropes.AppendIs | static/prosemirror.js:9 | appending, into a leaf or by a new or rotated node, puts one flat sequence behind the other and keeps the fields right |
| Ropes.LeafAppendIs | static/prosemirror.js:9 | appending to the last leaf happens exactly when the leaf then holds at most 200 values |
| Ropes.AppendLeaves | static/prosemirror.js:9 | when a rope goes into a leaf of the one next to it, and when all leaves stay |
| Ropes.PrependIs | static/prosemirror.js:9 | prepending is appending the other way round |
| Ropes.AppendedShallow | static/prosemirror.js:9 | a rope made by appending arrays is no deeper than the square root of their number allows |
| Ropes.SliceExact | static/prosemirror.js:9 | a slice is the stretch of the flat sequence, exactly unless a single leaf is sliced with an end before its start |
| Ropes.GetIs | static/prosemirror.js:9 | getting an element is indexing the flat sequence, undefined outside of it |
| Ropes.ForEach | static/prosemirror.js:9 | visiting goes over the flat sequence upwards or downwards with the right indices, until the callback stops it |
| Ropes.UpwardVisits | static/prosemirror.js:9 | what an upward visit calls, one call after the other: the value, its index counted from the start, the state the call before left, and where it stops |
| Ropes.DownwardVisits | static/prosemirror.js:9 | the same downwards |
| Branches.CutOffEvents | static/prosemirror.js:9 | drops the first n events and what is before the next one; drops nothing if there are no more |
| Branches.AddTransform | static/prosemirror.js:9 | records the steps of a change, merging where steps merge, and drops old events beyond the overflow |
| PopEvents.FindNewest | static/prosemirror.js:9 | the search from the end finds the last item that begins an event |
| PopEvents.Remapping | static/prosemirror.js:9 | the maps of a stretch of items, paired as mirrors where their offsets stay inside the stretch |
| PopEvents.PopEvent | static/prosemirror.js:9 | the newest event is taken back from the last item: its steps are just applied while all items have one, and mapped over what came after them from the first without one on; what is left, the document and the selection are those of `TakenBack` |
| PopEvents.AllAreRemade | static/prosemirror.js:9 | each map put behind the event's comes from a step of the event mapped over all that came after it, and mirrors the map kept of that step |
| PopTraces.PopFollows | static/prosemirror.js:9 | popping item by item: each step of the newest event, the last first, is mapped over exactly the maps that came after it, tried on the document there is then, and applied if it can be, with no step left out; what is left and what the selection is mapped over |
| PopTraces.ViewLeads | static/prosemirror.js:9 | what a step is mapped over leads from the document it was made for to the one it is tried on, and what the selection is mapped over from its document to the one handed back |
| PopTraces.UndoKeepsOthers | static/prosemirror.js:9 | where the steps commute with the changes that are not to be undone, the document handed back is the one before the event with those changes made |
| HistoryRuns.RecordAllItems | static/prosemirror.js:9 | where everything is to be kept, each step makes an item of its own |
| HistoryRuns.RecordGrows | static/prosemirror.js:9 | a step is merged into the last item exactly when that has a step, the two merge and the new one begins no event; the item then has the map of both and keeps its event |
| HistoryRuns.CountAfter | static/prosemirror.js:9 | the number of events after recording: all, or as many as asked for once there are more than twenty too many |
| HistoryRuns.TrimExact | static/prosemirror.js:9 | for a depth of at least two, dropping keeps exactly the newest `depth` events |
| HistoryRuns.RunKeeps | static/prosemirror.js:9 | over every run the count is the number of items that begin an event, all of which have a step, and never more than the depth and the overflow |
| HistoryRuns.CountRightIff | static/prosemirror.js:9 | the count is right over all runs exactly when the depth is at least two |
| HistoryRuns.PopPlain | static/prosemirror.js:9 | when all items have a step, taking back applies the event's steps from the last to the first, leaves just the items before it and gives its own selection |
| HistoryRuns.HistoryIsStack | static/prosemirror.js:9 | for steps whose recorded inverses take them back and whose merges do what the two do: over every run of changes and undos the history is a bounded stack of documents, and undoing gives back the document in which the newest event began |
| MapRuns.MapsAccount | static/prosemirror.js:9 | over every run of changes, changes that are not to be undone, and undos: from the oldest event on, the maps in the branch are of changes that lead one after the other to the document there is, and each step held takes its change back |
| MapRuns.PopLeadsOn | static/prosemirror.js:9 | so in every run what a popped step is mapped over leads from its document to the one it is tried on |
| ReplaceHistory.ReplaceMerges | static/prosemirror.js:4 | with transitive compatibility the merges of replacement steps do |
| ReplaceHistory.ReplaceTakesBack | static/prosemirror.js:4 | and the recorded inverses of replacement steps take them back |
| ReplaceHistory.ReplaceHistoryIsStack | static/prosemirror.js:9 | so for changes made by replacement steps between valid documents, every run can be followed, and the history is that stack |
| ReplaceMaps.ReplaceLawful | static/prosemirror.js:4 | with transitive compatibility replacement steps keep what those runs ask for, a map being of a change when all tokens outside of its range are the same before and after |
| ReplaceMaps.ReplaceStepsLead | static/prosemirror.js:4 | and changes made by them come with such maps and inverses |
| RateLimit.LoginRateLimiter.IsBlocked | src/core/rate_limit.rs:31-44 | prunes the entries of a key; blocked exactly when those inside the window, their number cast to 32 bits, reach the limit |
| RateLimit.LoginRateLimiter.RecordFailure | src/core/rate_limit.rs:47-63 | sweeps a large table, prunes the key's entries and adds the new one |
| RateLimit.LoginRateLimiter.Clear | src/core/rate_limit.rs:66-72 | removes the key |
| RateLimit.GrpcRateLimiter.CheckAndRecord | src/core/rate_limit.rs:95-119 | lets a request through and records it, or refuses it |
| RateLimit.Retain | src/core/rate_limit.rs:31-63 | the in-order filter: keeps exactly the entries younger than the window |
| RateLimit.LiveIsInWindow | src/core/rate_limit.rs:31-63 | as many as lie in the window that ends now, one just as old as the window no more among them |
| RateLimit.EntryAfter | src/core/rate_limit.rs:47-119 | what a recorded failure or a request leaves for its key: the young times there were, and behind them now, unless the request was refused |
| RateLimit.OtherKeys | src/core/rate_limit.rs:47-119 | what a call for one key does to the others: nothing up to 100 000 keys; past that, those without a young entry are dropped |
| RateLimit.KeysAfter | src/core/rate_limit.rs:31-72 | asking about a key adds and drops none; clearing drops just that one |
| RateLimit.LoginRemembers | src/core/rate_limit.rs:31-72 | under any interleaving of keys the pruned and swept table has, from now on, the live entries of the full history |
| RateLimit.FailuresAre | src/core/rate_limit.rs:47-72 | what the full history is: the times of the calls that recorded a failure for the key and were not followed by one that cleared it, in order |
| RateLimit.LoginExact | src/core/rate_limit.rs:31-72 | a key is blocked exactly when its failures since it was cleared and inside the window reach the limit, up to the cast to 32 bits |
| RateLimit.LoginExactIff | src/core/rate_limit.rs:31-72 | all answers come from the full history exactly when the limit is at least one |
| RateLimit.ZeroAttempts | src/core/rate_limit.rs:31-44 | with a limit of zero the answer is whether the key is in the table |
| RateLimit.RequestExact | src/core/rate_limit.rs:95-119 | a request is let through exactly when the window before it holds fewer admitted requests than the limit |
| RateLimit.LetThroughIs | src/core/rate_limit.rs:95-119 | the requests the limiter itself lets through, over every run, are those the full-history reference admits; with a limit of zero, all |
| RateLimit.RefusedOnlyWhenFull | src/core/rate_limit.rs:95-119 | a request is refused exactly when the limiter has let through as many in the window before it, counted by their times, as the limit |
| RateLimit.RefusedUnseen | src/core/rate_limit.rs:95-119 | a refused request uses nothing up: without it the same requests are let through |
| RateLimit.NeverTooMany | src/core/rate_limit.rs:95-119 | with a limit above zero, no interval as long as the window, open at its start, ever holds more requests that the limiter let through than the limit |
| RateLimit.LoginMemory | src/core/rate_limit.rs:54-63 | after a recorded failure the table holds at most the size limit, or the keys with a live entry, and one more |
| RateLimit.RequestMemory | src/core/rate_limit.rs:105-119 | the same after every request |
| EnvSubst.FindPlaceholder | src/config/env.rs:33-38 | the leftmost placeholder from a position on |
| EnvSubst.ParseRender | src/config/env.rs:32-64 | cutting a text up into literals and placeholders loses nothing |
| EnvSubst.ParseUnique | src/config/env.rs:32-64 | there is one way to cut a text up at leftmost placeholders that do not overlap |
| EnvSubst.SubstituteEnvVars | src/config/env.rs:32-64 | one pass: the literals in order with every placeholder replaced, or the first missing variable |
| EnvSubst.PatternIs | src/config/env.rs:33-38 | the pattern matches exactly `${`, a name without `}` that is not empty, and `}` |
| EnvSubst.DefaultReplaced | src/config/env.rs:43-47 | in any text, `${n:-d}` becomes the variable if it is set and not empty, and d otherwise |
| EnvSubst.VariableReplaced | src/config/env.rs:48-57 | in any text, `${n}` becomes the variable if it is set, the empty one included; otherwise n is reported |
| EnvSubst.PlainTextStays | src/config/env.rs:32-64 | text without a placeholder stays as it is |
| EnvSubst.SecondPass | src/config/env.rs:32-64 | with harmless replacements nothing is left to replace, in any environment |
| EnvSubst.LeavesNoneIff | src/config/env.rs:32-64 | exactly the harmless values never leave a placeholder behind |
| EnvSubst.HarmlessIff | src/config/env.rs:32-64 | exactly for the harmless values substituting a second time changes nothing, whatever text they are put into |
| EnvSubst.WalkIs | src/config/env.rs:8-26 | either all texts of a tree are substituted, or exactly those before the first that fails |
| EnvSubst.SubstituteInValue | src/config/env.rs:8-26 | the walk overwrites the texts in order, stops at the first failure, and changes nothing else |
| EnvSubst.EveryText | src/config/env.rs:8-26 | wherever a text is found in the tree, it is substituted afterwards; where the walk failed, substituted or as it was |
| EnvSubst.SameAt | src/config/env.rs:8-26 | everything else in the tree is as it was: lists as long, tables with the same keys, other values unchanged |

## Left out

- ContentRegular.RegularLanguage: one way only; whether two expressions mean the same language can not be read off their syntax, and `AutomatonExact` has no exception.
- ContentSteady.SteadyNeverSpins: one way only; the exact condition is that of `ClosureEndsIff`, which can be computed (`SpinsDecided`).
- ContentCorrect.CompileMatcher: asks for an automaton that does not spin, since the source does not return on the others.
- Mappings.MirroredIdentity: where a recovery value does not belong to its map the source goes on with a number that is not one; the model stops with None.
- Ropes.ForEach: positions outside of the rope, for which the source visits undefined values.
- HistoryRuns.HistoryIsStack: takes from the steps that a recorded inverse takes its step back, and that a merged step does what the two do; both can fail for replacement steps, and `ReplaceHistoryIsStack` shows them where compatibility is transitive.
- ReplaceHistory.ReplaceHistoryIsStack: the ways steps and selections are mapped are left open.
- PopTraces.UndoKeepsOthers: takes from the steps that they map and commute with the other changes; how steps are mapped is left open.
- Refusals.RefusalKind: where content is invalid and types do not join as well, either error may come.
- Schemas.ValidStarts: the rules of a schema are modelled for one that allows all marks everywhere.
- EnvSubst.SubstituteInValue: the tree is a value; what the walk leaves in place after a failure is its result.
- The history's `rebased` and `compress`, its grouping by time, and the plugin around it.
- All DOM, view, input, clipboard, keymap and command code of the bundle.
- The tokenizer and parser of content expressions: the model starts from the syntax tree, and takes from the parser that a choice or a sequence has a part.
- Filling in required attributes and content (`createAndFill`), parsing and serialising documents, checking attributes.
- The cached sizes of fragments and the cache of resolved positions.
- The `structure` flag of replacement steps, and all other kinds of steps.
- Sharing of the list of maps between mappings until one of them is changed, and the other operations on maps (`touches`, `forEach`).
- Copying a decoration's other fields when it is split.
- The regular expression and TOML libraries, mutexes, and real clock values.
