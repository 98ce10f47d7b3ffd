# Cageforge, modelled and verified

Cageforge turns portable sandbox policies into native launches. This project
models the parts of it that hold hard, unbounded promises, and proves them.
`dafny verify dfyconfig.toml` checks everything.

- **Deny globs on macOS** (`Glob`, `GlobSyntax`, `GlobLaws`, `Regex`, `GlobCompiler`,
  `GlobMeaning`, `GlobShape`). A pattern is read into the one tree it stands for, with its
  own meaning and laws on the text; the translators that scan it with a cursor are proved
  to emit the text of that tree; an independent reader of regular expressions then shows
  that the text means what the pattern means.
- **Seatbelt profiles** (`Seatbelt`, `TextPath`, `SeatbeltBuilder`, `SeatbeltMeaning`,
  `SeatbeltPaths`, `SeatbeltLimits`). The builder appends an ordered list of rules and path parameters;
  evaluating that list, last match wins, decides every access as the filesystem plan says.
- **Paths** (`LexicalPath`, `NativePath`, `KeyMeaning`). Scanner, component keys, and containment and
  equality on both platforms.
- **Profile inheritance** (`ProfileGraph`, `ProfileResolver`, `ProfileOrder`,
  `IndexedMerge`, `ProfileMerger`, `SectionMerger`, `ProfileSettings`, `ProfileLayers`,
  `ProfileResolution`). An explicit-stack search refines
  recursive post-order; a merger with hash indexes refines linear scans; together
  they resolve a profile, in the one order its inheritance allows.
- **The Linux launch** (`Wire`, `LocalIpc`, `EnvironmentFrame`, `ResultFrames`,
  `LaunchStream`, `ParentSpawn`, `Handshake`). Frames round-trip, both sides agree on the
  stream, the helper permits what the composed policies permit, and a state machine over
  two processes and two byte streams shows when user code may run and what a failed
  launch leaves.
- **Supervision and lifecycle** (`TraceEndpoint`, `TraceSupervisor`, `TraceOutcomes`,
  `ChildLifecycle`, `ChildOutcomes`, `LinuxChild`). A monitor over the log of trace calls,
  the books of the resources a child handle owns, and what each operation answers, over
  every run.
- **Environment transforms** (`Environment`, `EnvironmentDelivery`) with their folded-name
  index, up to the frame that carries the result.
- **The network proxy** (`TransferBudget`, `ConnectDeadline`). A compare-and-swap budget
  under every interleaving, and fair division of a connect deadline.

The kernel, the clock, other threads and calls into other crates appear as
parameters: sequences of events or outcomes over which every theorem is
quantified. Foldings, wildcard matchers and identities owned by other crates are
function parameters of which nothing is assumed, except that an encoding of text
keeps the bytes of NUL and `=` for themselves.

Where code and documentation differ the code is followed. Some promises hold
under an exact condition only. Each is proved in both directions, with an input at
which it fails:

- A glob means what it says if and only if its class ranges are ordered.
- A profile names only defined parameters if and only if the plan is restricted or
  has no write root.
- Mapping of executable code keeps out of denied paths, in a plan without globs, if
  and only if every executable root inside a denied path is denied itself.
- A failure frame returns its errno if and only if that is not the smallest 32-bit
  integer.
- A written environment is read back if and only if its names and values are clean.
  The writer does not check this; environments that were composed from validated
  variables always are.
- The child of a failed launch is gone if and only if waiting for it succeeded. The
  launch ignores that answer.

One more holds up to a stated loss: a candidate of the proxy gets its fair share of the
connect timeout less the time that passes outside dials, and that time can starve it.

## Model

| member | source | states |
|---|---|---|
| GlobMeaning.TranslationPreservesMeaning | crates/cageforge-macos/src/seatbelt.rs:720-959 | for every pattern and path, the emitted text, read back by an independent regex reader, matches the path if and only if every class range is ordered and the pattern covers the path (`*` and `?` stay in a component, boundary `**` does not, blank alternatives drop) |
| GlobMeaning.RegexReads | crates/cageforge-macos/src/seatbelt.rs:728-738 | the emitted text is readable exactly when every class range is ordered, and then reads as the expression of the pattern tree |
| GlobMeaning.ReadsPattern | crates/cageforge-macos/src/seatbelt.rs:746-779 | the text of a tree, followed by any text that does not repeat it, reads back as the tree's expression followed by the reading of that text |
| GlobMeaning.ReadsRanges | crates/cageforge-macos/src/seatbelt.rs:846-864 | class ranges re-read exactly as they were written, escapes included, and a descending range is refused |
| GlobMeaning.CompileMatches | crates/cageforge-macos/src/seatbelt.rs:746-779 | the expression of a tree matches exactly the paths the tree accepts |
| GlobMeaning.DescendingRangeIsUnreadable | crates/cageforge-macos/src/seatbelt.rs:855-861 | the input `[z-a]`: its filter cannot be read, so ordered ranges are really needed |
| GlobShape.TranslationIsBalanced | crates/cageforge-macos/src/seatbelt.rs:746-949 | for every pattern at all, groups and classes of the emitted text balance and no class, group or alternative in it is empty |
| Glob.ParseSpells | crates/cageforge-macos/src/seatbelt.rs:746-949 | reading a pattern into its tree loses, adds and reorders no character, whatever is unclosed in it |
| Glob.PlainPatternCovers | crates/cageforge-macos/src/seatbelt.rs:728-744 | a pattern without metacharacters covers exactly itself and its `/`-descendants |
| GlobSyntax.ParseIsCanonical | crates/cageforge-macos/src/seatbelt.rs:746-949 | every text stands for exactly one tree, by conditions on neighbouring tokens and on the text that follows; the reader finds that tree and no other |
| GlobLaws.CoversFitting | crates/cageforge-macos/src/seatbelt.rs:728-744 | a pattern with a metacharacter covers what fits it; one without covers itself and what lies under it |
| GlobLaws.ConcatenationFits | crates/cageforge-macos/src/seatbelt.rs:746-779 | a path fits two texts one after the other exactly when it splits into one that fits the first and one that fits the second, unless stars meet between them |
| GlobLaws.NothingFits | crates/cageforge-macos/src/seatbelt.rs:746-779 | only the empty path fits the empty text |
| GlobLaws.CharacterFits | crates/cageforge-macos/src/seatbelt.rs:757-777 | a character that is no metacharacter fits itself, whatever follows |
| GlobLaws.QuestionMarkFits | crates/cageforge-macos/src/seatbelt.rs:757-777 | a question mark fits one character other than a separator |
| GlobLaws.DeepPrefixFits | crates/cageforge-macos/src/seatbelt.rs:866-893 | at an edge, two stars and a separator fit nothing, or any text that ends in a separator |
| GlobLaws.DeepTailFits | crates/cageforge-macos/src/seatbelt.rs:866-893 | at an edge, two stars that end a pattern or a branch fit anything |
| GlobLaws.StarsFit | crates/cageforge-macos/src/seatbelt.rs:866-893 | any other run of stars fits any text without a separator; off an edge two stars as well |
| GlobLaws.ClassFits | crates/cageforge-macos/src/seatbelt.rs:781-864 | a closed class fits one character, listed by its body or, with a mark, not listed |
| GlobLaws.ClassLists | crates/cageforge-macos/src/seatbelt.rs:781-864 | what a body lists: characters and ranges; a dash at an end stands for itself, and of several ends in a row the last counts |
| GlobLaws.OpenBracketFits | crates/cageforge-macos/src/seatbelt.rs:781-848 | a bracket that nothing closes fits itself |
| GlobLaws.BracesFit | crates/cageforge-macos/src/seatbelt.rs:902-949 | braces fit what any of their non-empty texts fits, and nothing where all are empty |
| GlobLaws.OpenBraceFits | crates/cageforge-macos/src/seatbelt.rs:902-949 | a brace that nothing closes fits itself |
| GlobCompiler.TranslateSequence | crates/cageforge-macos/src/seatbelt.rs:746-779 | the cursor loop appends exactly the text of the pattern it scans and stops where that pattern ends; it terminates on every text |
| GlobCompiler.TranslateToken | crates/cageforge-macos/src/seatbelt.rs:757-777 | one token is translated and the cursor moves past it |
| GlobCompiler.ScanClass | crates/cageforge-macos/src/seatbelt.rs:781-848 | finds the closing bracket that ends a non-empty body, or none, and the ranges of the body |
| GlobCompiler.TranslateClass | crates/cageforge-macos/src/seatbelt.rs:781-864 | a closed class becomes a bracket expression; an unclosed one becomes an escaped bracket and the cursor backs up |
| GlobCompiler.TranslateStars | crates/cageforge-macos/src/seatbelt.rs:866-893 | a run of stars becomes a deep prefix, a deep tail or a component star, decided at component boundaries only |
| GlobCompiler.TranslateAlternation | crates/cageforge-macos/src/seatbelt.rs:902-949 | branches are collected to the closing brace with empty ones dropped; unclosed braces back up to a literal; after a branch the cursor is always on a comma or a closing brace |
| GlobCompiler.PushRegexLiteral | crates/cageforge-macos/src/seatbelt.rs:951-959 | appends a character, escaped when the regex reader gives it a meaning |
| GlobCompiler.PushRegexClassCharacter | crates/cageforge-macos/src/seatbelt.rs:895-900 | appends a class character, escaped when brackets give it a meaning |
| GlobCompiler.PatternHasGlobMeta | crates/cageforge-macos/src/seatbelt.rs:740-744 | finds a metacharacter exactly when there is one |
| GlobCompiler.GlobToSeatbeltRegex | crates/cageforge-macos/src/seatbelt.rs:720-738 | the anchored filter, with descendants where they are asked for and the pattern is plain |
| GlobCompiler.EscapeRegexLiteral | crates/cageforge-macos/src/seatbelt.rs:961-969 | escapes the double quotes of a text and nothing else |
| GlobCompiler.EscapeRegex | crates/cageforge-macos/src/seatbelt.rs:961-969 | escaping a finished filter equals escaping each literal in it, so a quoted filter keeps its meaning |
| SeatbeltMeaning.ProfileDecides | crates/cageforge-macos/src/seatbelt.rs:351-418 | for every plan, path and operation, last-match-wins evaluation of the built rules denies what the plan forbids, allows what else it grants and decides nothing more |
| SeatbeltMeaning.ReadDataDecision | crates/cageforge-macos/src/seatbelt.rs:351-418 | in a restricted plan read-data is allowed exactly under some read root, under no denied path and under no denied glob |
| SeatbeltMeaning.WriteDataDecision | crates/cageforge-macos/src/seatbelt.rs:351-418 | in a restricted plan write-data is allowed exactly under some write root and under no denied path, denied glob or write-denied path |
| SeatbeltMeaning.UndeniedRootsAreClear | crates/cageforge-macos/src/seatbelt.rs:546-595 | a path that nothing denies is in a clear root exactly when it is in a root |
| SeatbeltMeaning.AllowsThenDenies | crates/cageforge-macos/src/seatbelt.rs:351-418 | because every allow precedes every deny, an applying deny wins |
| SeatbeltMeaning.DenyHalf | crates/cageforge-macos/src/seatbelt.rs:394-418 | the deny rules apply exactly to what the plan forbids, directory removal of roots and protected ancestors included |
| SeatbeltMeaning.AllowHalf | crates/cageforge-macos/src/seatbelt.rs:351-393 | outside what is forbidden, the allow rules apply exactly to what the plan grants |
| SeatbeltMeaning.ParameterResolves | crates/cageforge-macos/src/seatbelt.rs:351-396 | every numbered parameter resolves to the path it was defined with, and to nothing else |
| SeatbeltMeaning.ProfileIsClosed | crates/cageforge-macos/src/seatbelt.rs:366-395 | every parameter a profile names is defined if and only if the plan is restricted or has no write root |
| SeatbeltMeaning.MetadataAncestorsAre | crates/cageforge-macos/src/seatbelt.rs:453-476 | the metadata ancestors are exactly the read and executable roots and their ancestors |
| TextPath.TextAncestorsAreCuts | crates/cageforge-macos/src/seatbelt.rs:494-501 | the ancestors of a glob are exactly the texts it can be cut to behind a component or at its start, nearest first |
| SeatbeltMeaning.ProtectedAncestorsAre | crates/cageforge-macos/src/seatbelt.rs:515-544 | the protected ancestors are exactly the strict ancestors of protected paths inside a write root |
| SeatbeltLimits.ExclusionsMissContainers | crates/cageforge-macos/src/seatbelt.rs:546-595 | inside a root the exclusions let a path through exactly when every listed path over it strictly contains the root |
| SeatbeltLimits.MissedPathsAreDenied | crates/cageforge-macos/src/seatbelt.rs:394-418 | what the exclusions miss is denied later: no path under a denied path can be read or written, in whatever root it lies |
| SeatbeltLimits.MapExecutableDecision | crates/cageforge-macos/src/seatbelt.rs:351-418 | code may be mapped exactly in an executable root, outside denied globs, where every denied path over it strictly contains that root |
| SeatbeltLimits.MappingIsAsExpected | crates/cageforge-macos/src/seatbelt.rs:351-418 | mapping is allowed exactly inside executable roots and outside everything denied, if and only if no executable root inside a denied path has a path that nothing else denies |
| SeatbeltLimits.RootsInsideDecide | crates/cageforge-macos/src/seatbelt.rs:351-418 | for a plan without globs that condition is: every executable root inside a denied path is denied itself; with globs it is still enough |
| SeatbeltLimits.DeniedCodeMayBeMapped | crates/cageforge-macos/src/seatbelt.rs:351-418 | an executable root inside a denied path: code there may be mapped |
| SeatbeltLimits.UnrestrictedWriteRootIsUndefined | crates/cageforge-macos/src/seatbelt.rs:366-395 | an unrestricted plan with a write root: its profile names a parameter that nothing defines |
| Seatbelt.NumberedInjective | crates/cageforge-macos/src/seatbelt.rs:559-571 | no two parameters share a name |
| SeatbeltBuilder.ProfileBuilder.AddFilesystem | crates/cageforge-macos/src/seatbelt.rs:351-418 | succeeds exactly on a buildable plan (usable roots, no NUL anywhere) and then appends exactly the rules and definitions of the plan |
| SeatbeltPaths.BuildableMeans | crates/cageforge-macos/src/seatbelt.rs:682-717 | the buildable plans: no path or glob in use holds a NUL and, in a restricted plan, every read and write root is a directory, a file or missing |
| SeatbeltPaths.PathTextReads | crates/cageforge-macos/src/seatbelt.rs:351-418 | the text of a path reads back as the path, so no two paths share one |
| SeatbeltBuilder.ProfileBuilder.AddRoots | crates/cageforge-macos/src/seatbelt.rs:546-595 | appends one allow with a clause per root and defines each root; fails on a symbolic link, an unreadable root or a NUL |
| SeatbeltBuilder.ProfileBuilder.AddRoot | crates/cageforge-macos/src/seatbelt.rs:559-591 | defines one root and yields its clause with its exclusions |
| SeatbeltBuilder.ProfileBuilder.AddFullRoot | crates/cageforge-macos/src/seatbelt.rs:597-617 | appends one allow of everything outside the named paths |
| SeatbeltBuilder.ProfileBuilder.AddRootMetadataAncestors | crates/cageforge-macos/src/seatbelt.rs:453-476 | defines the ancestors and allows their metadata |
| SeatbeltBuilder.ProfileBuilder.AddDeniedGlobRules | crates/cageforge-macos/src/seatbelt.rs:478-504 | appends the denials of every glob and of the removal of its ancestors; fails exactly on a NUL |
| SeatbeltBuilder.ProfileBuilder.AddWritableRootAnchorDenies | crates/cageforge-macos/src/seatbelt.rs:506-513 | denies the removal of each write root |
| SeatbeltBuilder.ProfileBuilder.AddProtectedAncestorDenies | crates/cageforge-macos/src/seatbelt.rs:515-544 | defines the protected ancestors and denies their removal |
| SeatbeltBuilder.ProfileBuilder.AddPathDenies | crates/cageforge-macos/src/seatbelt.rs:397-416 | appends the denials of denied and write-denied paths |
| SeatbeltBuilder.ProfileBuilder.AddDefinition | crates/cageforge-macos/src/seatbelt.rs:682-691 | adds a definition exactly when its name and value are usable, and changes nothing otherwise |
| SeatbeltBuilder.PushExclusions | crates/cageforge-macos/src/seatbelt.rs:619-623 | appends the exclusions of the paths inside a root |
| SeatbeltBuilder.CollectAncestors | crates/cageforge-macos/src/seatbelt.rs:457-461 | collects the distinct ancestors of some roots |
| SeatbeltBuilder.CollectProtected | crates/cageforge-macos/src/seatbelt.rs:519-534 | collects the distinct protected ancestors |
| LexicalPath.ContainsParentTraversalText | crates/cageforge-path/src/lib.rs:99-116 | the one-pass scanner reports a `..` exactly when one stands between separators of the dialect |
| LexicalPath.ScannerAgreesWithKey | crates/cageforge-path/src/lib.rs:99-194 | for every text and dialect the scanner agrees with the component key: it reports exactly when the key has a parent component |
| LexicalPath.StripDeviceKeepsParents | crates/cageforge-path/src/lib.rs:141-158 | stripping verbatim and device prefixes neither drops nor adds a `..` |
| LexicalPath.LexicalPosixComponents | crates/cageforge-path/src/lib.rs:125-138 | builds the POSIX key |
| LexicalPath.LexicalWindowsComponents | crates/cageforge-path/src/lib.rs:140-194 | builds the Windows key, drive and share prefixes included |
| KeyMeaning.PosixKeyMeans | crates/cageforge-path/src/lib.rs:125-138 | two POSIX texts have one key exactly when both or neither is absolute and they have the same names |
| KeyMeaning.WindowsKeyMeans | crates/cageforge-path/src/lib.rs:140-194 | two Windows texts have one key exactly when they start alike, drives in either case, and have the same names up to folding |
| KeyMeaning.SplitJoins | crates/cageforge-path/src/lib.rs:125-138 | the pieces of a text are the texts without a separator that it joins |
| KeyMeaning.SlashedMeans | crates/cageforge-path/src/lib.rs:141-141 | backslashes become slashes and nothing else changes |
| KeyMeaning.StripDeviceMeans | crates/cageforge-path/src/lib.rs:142-158 | a device prefix is taken off: before a share path two slashes stay, before anything else nothing does |
| KeyMeaning.DrivesAre | crates/cageforge-path/src/lib.rs:160-166 | a drive is one ASCII letter and a colon |
| KeyMeaning.LoweringIdentifies | crates/cageforge-config/src/merge.rs:196-208 | lowering identifies the two cases of an ASCII letter and nothing else |
| LexicalPath.WithinRoot | crates/cageforge-path/src/lib.rs:325-361 | the component rule of containment, on components that already count: a prefix, without traversal, where an empty root contains the relative paths only |
| NativePath.WithinIsPartialOrder | crates/cageforge-path/src/lib.rs:297-361 | on both platforms, for paths spelled with any components, containment is reflexive exactly on paths without traversal, transitive, and antisymmetric up to equality |
| NativePath.WithinIsExtension | crates/cageforge-path/src/lib.rs:320-361 | containment means that neither path traverses and the path has the components of the root followed by others; a root that names no place contains what names none |
| NativePath.WithinRespectsEquality | crates/cageforge-path/src/lib.rs:297-361 | containment does not depend on the spelling, as long as no spelling traverses |
| NativePath.WithinRoot | crates/cageforge-path/src/lib.rs:320-361 | decides containment: on Windows by folded keys of the ordinary spelling, where an empty root contains what has neither prefix nor root |
| NativePath.UnixWithin | crates/cageforge-path/src/lib.rs:325-361 | the two cursors that skip current directories decide containment |
| NativePath.PathsEqual | crates/cageforge-path/src/lib.rs:297-318 | decides equality on both platforms |
| NativePath.UnixPathsEqual | crates/cageforge-path/src/lib.rs:297-318 | the lockstep walk that skips current directories on either side decides equality |
| NativePath.UnixWithinIsOnKeys | crates/cageforge-path/src/lib.rs:325-361 | on Unix, containment of paths is the component rule on their keys |
| NativePath.CurrentDirectoryDoesNotCount | crates/cageforge-path/src/lib.rs:297-318 | spellings that differ by a current-directory component are equal |
| NativePath.DeviceSpellingsAreEqual | crates/cageforge-path/src/native.rs:52-84 | a drive or share path equals itself behind its device prefix |
| NativePath.OrdinaryMeans | crates/cageforge-path/src/native.rs:52-84 | a device prefix is rewritten before a share or a drive, with separators of either kind and letters of either case, and any other text stays |
| ProfileResolver.ResolveOrder | crates/cageforge-config/src/resolve.rs:254-323 | the explicit-stack search returns the recursive post-order whenever there is one; an unknown profile it reports is reachable and undeclared, a cycle it reports is a reachable closed walk, and the invariant error is unreachable; it terminates on every configuration |
| ProfileGraph.PostOrderSucceedsIff | crates/cageforge-config/src/resolve.rs:249-323 | there is an order exactly when everything reachable is declared and no cycle is reachable |
| ProfileGraph.PostOrderIsMergeOrder | crates/cageforge-config/src/resolve.rs:310-323 | the order lists exactly the reachable profiles, each once, each after all it inherits, the requested one last |
| ProfileResolver.SkipParent | crates/cageforge-config/src/resolve.rs:287-289 | a merged parent is skipped without changing what remains; the unread slots shrink |
| ProfileResolver.CyclicParent | crates/cageforge-config/src/resolve.rs:290-297 | a parent on the stack closes a real reachable cycle, and then no order exists |
| ProfileResolver.UndeclaredParent | crates/cageforge-config/src/resolve.rs:298-303 | an undeclared parent is reachable, and then no order exists |
| ProfileResolver.PushParent | crates/cageforge-config/src/resolve.rs:304-307 | a new parent is pushed with frames, index and names in lockstep; the unvisited profiles shrink |
| ProfileResolver.CompleteTop | crates/cageforge-config/src/resolve.rs:310-322 | a completed profile is popped with all three in lockstep, and what remains is unchanged |
| ProfileResolution.Resolve | crates/cageforge-config/src/resolve.rs:249-336 | resolution succeeds exactly when everything inherited is declared and nothing inherits itself, and merges the orders of the inherited profiles as they are listed, each name where it comes first, and then the profile itself |
| ProfileResolution.MergeAll | crates/cageforge-config/src/resolve.rs:325-335 | merging the profiles in order is folding all their sections |
| ProfileOrder.OrderGathers | crates/cageforge-config/src/resolve.rs:254-323 | the post-order of a profile is made of those of the profiles it inherits, one after the other without repetition |
| ProfileResolution.OneOrder | crates/cageforge-config/src/resolve.rs:249-323 | a profile has an order exactly when its inheritance is well founded, and only one |
| ProfileResolution.OrderMeans | crates/cageforge-config/src/resolve.rs:310-323 | exactly the profile and all it inherits is merged: each once, each after all it inherits, itself last |
| ProfileResolution.LaterParentIsLater | crates/cageforge-config/src/resolve.rs:283-309 | what comes with one parent is merged before what comes only with later ones |
| ProfileResolution.LastParentIsNext | crates/cageforge-config/src/resolve.rs:283-309 | a last parent that no other parent inherits is merged right before the profile |
| ProfileResolution.DecidedRule | crates/cageforge-config/src/resolve.rs:325-335 | the last profile in the order that states a rule decides it, unless a later one clears the filesystem |
| ProfileResolution.LastParentWins | crates/cageforge-config/src/resolve.rs:283-335 | a rule that the last parent states and the profile does not has that parent's entry |
| ProfileResolution.OwnRuleWins | crates/cageforge-config/src/resolve.rs:249-336 | a filesystem rule that the requested profile states itself is the rule of the resolved profile, whatever is inherited and in whatever shape |
| ProfileMerger.FoldFaithful | crates/cageforge-config/src/merge.rs:151-332 | for every list of sections each keyed list of the merged profile is its history since the last clearing section: keys in first-seen order, each with its last entry, protected paths each with its first; workspace roots and filters hold the last spelling and value of each key |
| ProfileSettings.FilesystemSettings | crates/cageforge-config/src/merge.rs:241-273 | after any sections the filesystem mode is the last one given, and scan depth and security are the last given since a section opened the filesystem |
| ProfileSettings.NetworkSettings | crates/cageforge-config/src/merge.rs:285-316 | the same for network mode, domain mode, socket mode and local access; gateway settings are the last given, which nothing clears |
| ProfileSettings.OtherSettings | crates/cageforge-config/src/merge.rs:184-209 | which sections a merged profile has, and what its environment inherits |
| ProfileSettings.RemovalWins | crates/cageforge-config/src/merge.rs:479-490 | a section that both assigns and removes a variable removes it |
| ProfileSettings.SameRule | crates/cageforge-config/src/merge.rs:386-453 | two filesystem rules are one exactly when they have the same kind of target and name the same place |
| ProfileLayers.LayerApplies | crates/cageforge-config/src/merge.rs:98-149 | a layer merges every section it has; a network left to others drops earlier local endpoints and not the layer's own |
| ProfileLayers.ProfileApplies | crates/cageforge-config/src/merge.rs:98-124 | what an overlay says comes after what its profile says |
| ProfileMerger.FilesystemReset | crates/cageforge-config/src/merge.rs:246-256 | a filesystem mode that is not restricted makes the result equal to merging from that section on |
| ProfileMerger.NetworkReset | crates/cageforge-config/src/merge.rs:287-301 | an external network makes network and local endpoints equal to merging from that section on, gateway settings aside |
| ProfileMerger.FoldOverrides | crates/cageforge-config/src/merge.rs:479-490 | every variable identity carries the last override given for it |
| ProfileMerger.FinishedEnvironment | crates/cageforge-config/src/merge.rs:211-229 | a finished environment assigns or removes a name exactly as the last override of its identity does, and never under two spellings |
| IndexedMerge.PutIndexed | crates/cageforge-config/src/merge.rs:151-163 | the merge through the index equals the linear-scan merge and keeps the index a bijection between keys and positions |
| IndexedMerge.AddIndexed | crates/cageforge-config/src/merge.rs:260-267 | additions through a key set equal linear-scan additions |
| IndexedMerge.SpellIndexed | crates/cageforge-config/src/merge.rs:231-239 | replacement of spellings through the index equals forgetting every other spelling of the key |
| IndexedMerge.SpellAllLastWins | crates/cageforge-config/src/merge.rs:231-239 | at most one spelling of a key survives, and it is the last one written |
| IndexedMerge.PutAllMerges | crates/cageforge-config/src/merge.rs:241-332 | the linear-scan merge of a history is its keys in first-seen order, each with its last entry |
| IndexedMerge.AddAllCollects | crates/cageforge-config/src/merge.rs:260-267 | additions collect the keys in first-seen order, each with its first entry |
| IndexedMerge.SpellAllSpells | crates/cageforge-config/src/merge.rs:231-239 | for every history, a text is in the map exactly when it is the last spelling of its key, with the value written then |
| SectionMerger.Merger.Merge | crates/cageforge-config/src/merge.rs:97-149 | one section is merged as the linear scan would, with every index kept a bijection |
| SectionMerger.Merger.MergeNetworkSection | crates/cageforge-config/src/merge.rs:285-332 | an external network drops local endpoints together with their index |
| SectionMerger.Merger.MergeEnvironmentSection | crates/cageforge-config/src/merge.rs:463-491 | filters are replaced by identity and overrides collected |
| SectionMerger.Merger.Apply | crates/cageforge-config/src/merge.rs:98-124 | a profile and then its platform overlay are merged in their fixed section order |
| SectionMerger.Merger.Finish | crates/cageforge-config/src/merge.rs:211-229 | collected overrides are split into assignments and removals, the removals listed in the order of their identities |
| SectionMerger.Merger.constructor | crates/cageforge-config/src/merge.rs:79-94 | a new merger is empty with empty indexes |
| SectionMerger.PutFilesystem | crates/cageforge-config/src/merge.rs:241-283 | filesystem merge through its indexes |
| SectionMerger.PutNetwork | crates/cageforge-config/src/merge.rs:285-332 | network merge through its indexes |
| SectionMerger.PutLocalIpc | crates/cageforge-config/src/merge.rs:184-209 | local endpoint merge through its indexes |
| ChildLifecycle.RunSafe | crates/cageforge-linux/src/process.rs:141-439 | over every run of try_wait, wait, kill, drop and recovery with arbitrary outcomes each resource is held, released or leaked exactly once, none is released before the child was seen dead, a finished boundary has released everything, and a leak happens only when recovery cannot run |
| ChildOutcomes.DeathIsSeen | crates/cageforge-linux/src/process.rs:141-439 | over every run the child counts as dead exactly when some operation was told so by a call it made: a poll, a wait, the poll after a refused kill, or a poll before the deadline with only running answers before it; nothing is released otherwise |
| ChildOutcomes.RunDeaths | crates/cageforge-linux/src/process.rs:141-439 | in every run each such answer is recorded once, and nothing else is |
| ChildLifecycle.ConfirmMeans | crates/cageforge-linux/src/process.rs:423-439 | termination is confirmed if and only if the child was seen dead, and unconfirmed exactly when every poll before the deadline found it running |
| ChildOutcomes.TryWaitAnswers | crates/cageforge-linux/src/process.rs:141-182 | a status comes out exactly when the boundary was healthy, seen dead and closed without an error and its watchdog had not fired: the status the command reported, or the boundary's own where there is no channel; a timeout comes out exactly when the watchdog had fired and all else closed |
| ChildOutcomes.WaitAnswers | crates/cageforge-linux/src/process.rs:184-203 | a wait yields what its first turn that is not quiet yields; a bare handle blocks |
| ChildOutcomes.KillAnswers | crates/cageforge-linux/src/process.rs:205-208 | a kill passes exactly when the child is or was seen dead and everything closes; where every poll found it running nothing changes |
| ChildOutcomes.DropAnswers | crates/cageforge-linux/src/process.rs:378-417 | a drop is done exactly when the child is or was seen dead and everything closes; otherwise recovery takes over, or everything is leaked when it cannot |
| ChildOutcomes.HandedOverAnswers | crates/cageforge-linux/src/process.rs:344-361 | a handle whose boundary was handed to recovery has no child any more, and says so |
| ChildOutcomes.LaunchedReports | crates/cageforge-linux/src/process.rs:141-182 | a launched handle yields the status its command reports |
| ChildOutcomes.CleanupOrder | crates/cageforge-linux/src/process.rs:294-329 | watchdog, gateway and monitor are released in that order, then the targets from the last to the first; what fails stays held and nothing else of the handle changes |
| ChildOutcomes.CleanupAnswers | crates/cageforge-linux/src/process.rs:295-329 | which failure a cleanup reports |
| ChildLifecycle.CleanTargetsKeep | crates/cageforge-linux/src/process.rs:210-230 | exactly the failing synthetic targets are kept, in their original order |
| ChildLifecycle.CleanTargetsSpend | crates/cageforge-linux/src/process.rs:210-230 | every target is kept or released, once |
| ChildLifecycle.CleanupKeeps | crates/cageforge-linux/src/process.rs:295-329 | cleanup of a dead boundary reports success exactly when nothing is held any more |
| ChildLifecycle.TryWaitKeeps | crates/cageforge-linux/src/process.rs:141-182 | a status means the boundary is dead and nothing is held; no status means nothing changed |
| ChildLifecycle.WaitKeeps | crates/cageforge-linux/src/process.rs:184-203 | the same for waiting |
| ChildLifecycle.KillKeeps | crates/cageforge-linux/src/process.rs:205-208 | kill succeeds exactly when death is confirmed and nothing is held |
| ChildLifecycle.DropKeeps | crates/cageforge-linux/src/process.rs:378-417 | after a drop the boundary is finished, owned by recovery or leaked; finished only when confirmed dead |
| ChildLifecycle.RecoveryTurnKeeps | crates/cageforge-linux/src/process.rs:363-376 | a recovery turn never leaks and ends only when everything is released |
| LinuxChild.TerminateChildAndConfirm | crates/cageforge-linux/src/process.rs:423-439 | passes exactly when the child was seen dead, and reports an unconfirmed termination exactly when every poll found it running |
| LinuxChild.Child.CleanupSyntheticTargets | crates/cageforge-linux/src/process.rs:210-230 | pops targets and puts the failed ones back in original order |
| LinuxChild.Child.CleanupBoundaries | crates/cageforge-linux/src/process.rs:295-329 | closes watchdog, gateway, monitor and targets; the first failure is reported |
| LinuxChild.Child.FinishStatus | crates/cageforge-linux/src/process.rs:248-263 | a cleanup failure or a timeout hides the status |
| LinuxChild.Child.TryWait | crates/cageforge-linux/src/process.rs:141-182 | the whole new state of the handle for every outcome |
| LinuxChild.Child.Wait | crates/cageforge-linux/src/process.rs:184-203 | the polling loop, or the blocking wait of a bare handle |
| LinuxChild.Child.Kill | crates/cageforge-linux/src/process.rs:205-208 | the whole new state after a kill |
| LinuxChild.Child.TakeRecoveryOwner | crates/cageforge-linux/src/process.rs:350-361 | everything moves to a new owner and the handle is left empty |
| LinuxChild.Child.Drop | crates/cageforge-linux/src/process.rs:378-417 | afterwards the handle owns nothing, and a new owner holds what is left |
| LinuxChild.Child.RecoverOnce | crates/cageforge-linux/src/process.rs:363-376 | one turn of the recovery loop |
| LocalIpc.FromSandbox | crates/cageforge-linux/src/local_ipc.rs:84-146 | the lowered policy allows a path exactly when every layer does; lowering fails only on an unusable path or too many rules, never on a duplicate |
| LocalIpc.LoweringIsConjunction | crates/cageforge-linux/src/local_ipc.rs:96-129 | folding any list of layers is taking their conjunction |
| LocalIpc.OrderDoesNotMatter | crates/cageforge-linux/src/local_ipc.rs:96-129 | layers in another order allow the same paths |
| LocalIpc.Validate | crates/cageforge-linux/src/local_ipc.rs:148-169 | accepts exactly the policies with few, valid and distinct paths |
| LocalIpc.FrameRoundTrip | crates/cageforge-linux/src/local_ipc.rs:179-233 | a written valid policy is read back, whatever follows it, and what follows is untouched |
| LocalIpc.FrameRewrites | crates/cageforge-linux/src/local_ipc.rs:179-233 | re-writing an accepted frame reproduces its bytes |
| LocalIpc.WriteFrame | crates/cageforge-linux/src/local_ipc.rs:179-199 | writes exactly the frame of a valid policy and nothing of another |
| LocalIpc.ReadFrame | crates/cageforge-linux/src/local_ipc.rs:201-233 | accepts exactly the frames of valid policies and stops after the frame |
| LocalIpc.WriteRules | crates/cageforge-linux/src/local_ipc.rs:260-286 | writes a counted list of length-prefixed paths |
| LocalIpc.ReadRules | crates/cageforge-linux/src/local_ipc.rs:288-330 | reads such a list, checking count and length before reading on |
| LocalIpc.ReadPath | crates/cageforge-linux/src/local_ipc.rs:303-328 | reads one path and validates it |
| Wire.BigEndianReads | crates/cageforge-linux/src/local_ipc.rs:266-270 | a written integer of any width reads back |
| Wire.BigEndianIsPositional | crates/cageforge-linux/src/local_ipc.rs:296-296 | the first byte of an integer weighs most |
| Wire.BigEndianI32RoundTrip | crates/cageforge-linux/src/hardening.rs:415-420 | two's complement integers and their four bytes correspond one to one |
| ResultFrames.SetupRoundTrip | crates/cageforge-linux/src/hardening.rs:408-421 | every setup result reads back as itself if and only if its errno is not the smallest 32-bit integer; what follows is untouched |
| ResultFrames.SentinelErrnoIsLost | crates/cageforge-linux/src/setup_transport.rs:28-42 | the sentinel as errno: it reads back as no errno |
| ResultFrames.SetupRewrites | crates/cageforge-linux/src/setup_transport.rs:12-42 | re-writing an accepted setup frame reproduces its bytes |
| ResultFrames.StatusRoundTrip | crates/cageforge-linux/src/hardening.rs:423-436 | every wait status reads back as itself, and every runtime failure if and only if its errno is not the sentinel |
| ResultFrames.StatusRewrites | crates/cageforge-linux/src/status_transport.rs:20-101 | re-writing an accepted status frame reproduces its bytes |
| ResultFrames.SetupFailures | crates/cageforge-linux/src/setup_transport.rs:12-42 | on the bytes of any stream, when each error is reported: wrong magic, unknown tag, unknown code, or an end before what is needed next |
| ResultFrames.StatusFailures | crates/cageforge-linux/src/status_transport.rs:20-101 | on the bytes of any stream, when each error is reported; only an empty stream is a missing frame |
| ResultFrames.TablesAreTables | crates/cageforge-linux/src/hardening_error.rs:506-573 | the codes of both tables of failure kinds are distinct and map back to their kinds |
| ResultFrames.ReadSetupResult | crates/cageforge-linux/src/setup_transport.rs:12-42 | READY passes, a rejection is an error with its kind and errno, and every malformed frame has its own error |
| ResultFrames.ReadStatus | crates/cageforge-linux/src/status_transport.rs:20-62 | interruptions before the first byte are invisible, any other fault there is an input error, an empty stream is a missing frame |
| ResultFrames.ReadStatusFrame | crates/cageforge-linux/src/status_transport.rs:41-62 | the remaining magic, the tag and the body |
| ResultFrames.ReadCommandStatus | crates/cageforge-linux/src/status_transport.rs:64-75 | a command status of any value |
| ResultFrames.ReadRuntimeFailure | crates/cageforge-linux/src/status_transport.rs:77-101 | an unknown code is refused before the errno is read |
| EnvironmentFrame.EnvironmentRoundTrip | crates/cageforge-linux/src/environment_transport.rs:16-50 | an environment written in any order is read back exactly when every entry is clean; otherwise the reader names the fault of the first unclean entry |
| EnvironmentFrame.AdmitAnswers | crates/cageforge-linux/src/hardening/environment.rs:41-55 | which of size, name, value and duplicate is reported when several are at fault |
| EnvironmentFrame.UncleanEntryIsRefused | crates/cageforge-linux/src/environment_transport.rs:16-50 | the name `=`: written by the writer and refused by the reader |
| EnvironmentFrame.EnvironmentRewrites | crates/cageforge-linux/src/hardening/environment.rs:16-58 | whatever the reader accepts is what the writer writes for some order of the result |
| EnvironmentFrame.WriteEnvironment | crates/cageforge-linux/src/environment_transport.rs:16-50 | writes exactly the environments within the limits |
| EnvironmentFrame.ReadEnvironment | crates/cageforge-linux/src/hardening/environment.rs:16-58 | reads one frame and stops after it |
| EnvironmentFrame.ReadBody | crates/cageforge-linux/src/hardening/environment.rs:36-57 | checks size, spelling and duplicates of each entry in that order |
| LaunchStream.StreamAgreement | crates/cageforge-linux/src/hardening.rs:146-193 | the helper's conditional reads consume exactly what the parent conditionally wrote, whatever follows, if and only if local-IPC rules are required only of an enabled network and the environment is clean |
| LaunchStream.LaunchDelivers | crates/cageforge-linux/src/backend.rs:283-309 | for every pair of composed policies that can be launched, in every mode, the helper reads exactly what was written and permits a socket path exactly when both layers do |
| LaunchStream.DeliverSetup | crates/cageforge-linux/src/backend.rs:283-409 | lowering, writing and reading one setup succeeds exactly when the launch is allowed, its rules can be lowered and its environment fits and is clean, and then delivers the environment and a policy equal to the conjunction of both layers |
| LaunchStream.ModeAndPolicyPermit | crates/cageforge-linux/src/backend.rs:590-640 | the mode and the policy that is sent, or not sent, together permit a socket path exactly when both composed layers do |
| LaunchStream.ModeOfPolicies | crates/cageforge-linux/src/backend.rs:590-640 | the mode of a launch from the two policies alone: proxied exactly when both enable the network and either restricts the traffic, and refused where the network is left to others or a proxied launch would leave every socket open |
| LaunchStream.ComposedRulesAreEnabled | crates/cageforge-policy-compose/src/model.rs:242-290 | composed policies require local-IPC rules only of an enabled network |
| LaunchStream.UnsentPolicyIsUniform | crates/cageforge-policy-compose/src/model.rs:242-290 | where no policy is sent on an enabled network, the layers allow every socket path or none |
| LaunchStream.ModeIsCarried | crates/cageforge-linux/src/backend.rs:345-378 | the mode the helper reads from its variable is the parent's mode |
| LaunchStream.ReceiveExtends | crates/cageforge-linux/src/hardening.rs:146-193 | what the helper has read stays read when more bytes arrive |
| LaunchStream.Send | crates/cageforge-linux/src/backend.rs:394-409 | writes token, bridge token, policy and environment, each under its own condition |
| LaunchStream.ReceiveSetup | crates/cageforge-linux/src/hardening.rs:146-202 | reads token, bridge token, policy and environment, each under its own condition |
| LaunchStream.StartBridge | crates/cageforge-linux/src/hardening.rs:885-929 | reads the bridge token exactly in proxied modes |
| Handshake.UserCodeRunsLast | crates/cageforge-linux/src/backend.rs:388-447 | in every interleaving of parent and helper, with writes arriving in any pieces and failures anywhere, user code runs only after READY was sent and accepted, host names were detached, the watchdog was started where a timeout applies, and RELEASE was sent |
| Handshake.FailureKillsAndWaits | crates/cageforge-linux/src/backend.rs:388-437 | in every interleaving a failed launch had no child, or did some stages, killed the child and waited for it; the child is gone exactly when that wait succeeded, and with it helper and command |
| Handshake.FailedWaitLeavesChild | crates/cageforge-linux/src/backend.rs:554-557 | where the wait fails, the child of a failed launch can be alive |
| Handshake.RejectionEnds | crates/cageforge-linux/src/setup_transport.rs:28-42 | every rejection can reach the parent, which then kills and reaps the child |
| Handshake.LaunchedDidEverything | crates/cageforge-linux/src/backend.rs:388-447 | a successful launch did every stage, and neither killed nor waited |
| Handshake.RunIsSpawn | crates/cageforge-linux/src/backend.rs:388-447 | what the parent did in any finished run is what the sequential spawn does for some outcomes of its calls |
| Handshake.CommandDiesWithHelper | crates/cageforge-linux/src/hardening.rs:240-312 | a supervised command never outlives its helper, and none outlives the child |
| ParentSpawn.Spawn | crates/cageforge-linux/src/backend.rs:388-447 | the sequence of calls, each with its own way out, does the stages of the plan until the first that fails |
| ParentSpawn.PlanIsNeeded | crates/cageforge-linux/src/backend.rs:391-436 | a spawn does the stages its launch needs, and only those, in one order |
| ParentSpawn.EveryErrorTerminates | crates/cageforge-linux/src/backend.rs:388-447 | every error after creation did exactly the stages before it, then killed, then waited; without an error every stage was done and neither call made |
| ParentSpawn.TerminateFailedSetup | crates/cageforge-linux/src/backend.rs:554-557 | kills and then waits, whatever either answers |
| Handshake.ReleaseIsNeverInvalid | crates/cageforge-linux/src/hardening.rs:1013-1033 | whenever the helper can read a release, it is RELEASE |
| Handshake.ReportIsDelivered | crates/cageforge-linux/src/hardening.rs:851-862 | a reported result follows READY on the stream and reads back as itself, up to the errno sentinel |
| Handshake.LaunchCanRun | crates/cageforge-linux/src/hardening.rs:240-312 | every launch with a clean environment has a run in which its command executes |
| Handshake.SomeLaunchIsWellFormed | crates/cageforge-linux/src/backend.rs:283-309 | launches with a proxied network, a bridge token and a local-IPC policy exist, with or without a timeout and tracing |
| Handshake.ConfiguredAtRelease | crates/cageforge-linux/src/hardening.rs:146-202 | however the bytes arrived, a configured helper has read exactly up to where RELEASE begins |
| Handshake.ReadyWasSent | crates/cageforge-linux/src/setup_transport.rs:12-26 | the parent accepts only if the helper has sent READY, no part of a rejection can be taken for it |
| TraceSupervisor.SupervisionIsLegal | crates/cageforge-linux/src/hardening.rs:472-543 | in every run a tracee is resumed only with options set, at most once per stop, with the signal it is owed, and not while a refused connect or bind of a known tracee is pending; only refused calls are overwritten; and unless a call failed nothing seen to stop is left stopped |
| TraceSupervisor.DoneOnlyForRoot | crates/cageforge-linux/src/hardening.rs:510-516 | a run succeeds exactly when the root ends, with the root's status |
| TraceSupervisor.JudgementIsPolicy | crates/cageforge-linux/src/hardening.rs:565-578 | a judged call is let through exactly when the policy permits what its address names |
| TraceOutcomes.JudgeFails | crates/cageforge-linux/src/hardening.rs:565-578 | no judgement is reached exactly when the registers cannot be read, or some word of the address of a connect or bind cannot be told from an error |
| TraceOutcomes.RunFails | crates/cageforge-linux/src/hardening.rs:492-543 | a run fails exactly when the first resume is refused or, before the root ends, some event fails: a wait, an odd status, a refused call on a tracee or a call that cannot be judged |
| TraceOutcomes.TraceesAre | crates/cageforge-linux/src/hardening.rs:510-523 | the known tracees are the root and those seen to stop, until they end |
| TraceSupervisor.HandleLocalIpcEvent | crates/cageforge-linux/src/hardening.rs:565-578 | only connect and bind are judged |
| TraceSupervisor.Prepare | crates/cageforge-linux/src/hardening.rs:472-490 | a supervisor exists exactly when the first wait, interruptions aside, reported a trap stop and the options were accepted; a broken wait, another status and refused options each have their own failure |
| TraceSupervisor.Supervisor.HandleStop | crates/cageforge-linux/src/hardening.rs:524-541 | what one stop leads to |
| TraceSupervisor.Supervisor.Supervise | crates/cageforge-linux/src/hardening.rs:492-543 | the wait loop over any events |
| TraceEndpoint.ReadMemory | crates/cageforge-linux/src/hardening.rs:750-780 | copies exactly the tracee's bytes, and fails exactly when a covering word is unreadable or all ones |
| TraceEndpoint.PeekableMeans | crates/cageforge-linux/src/hardening.rs:750-780 | a range can be read exactly when every word that covers it is readable and not all ones |
| TraceEndpoint.ReadEndpoint | crates/cageforge-linux/src/hardening.rs:720-747 | the endpoint of an address, for every length and content |
| TraceEndpoint.EndpointMeaning | crates/cageforge-linux/src/hardening.rs:720-747 | the endpoint is a path exactly when the address names that path, and non-Unix exactly when its family is another |
| TraceEndpoint.FamilyMeans | crates/cageforge-linux/src/hardening.rs:729-732 | the Unix family is a one in the first byte and a zero in the second |
| Environment.ApplyTo | crates/cageforge-command/src/environment.rs:265-324 | succeeds exactly on a base the specification admits and yields, in any order of names, the meaning of exclude, override and include for each name by itself, with at most one variable per folded name |
| Environment.FiltersDecide | crates/cageforge-command/src/environment.rs:265-324 | of the result, filter by filter: a name that some filter excludes passes only where it is set outright, one that no filter to include lists never passes, and any other name passes |
| Environment.ApplyOverrides | crates/cageforge-command/src/environment.rs:295-306 | overrides applied in any order through an index that exclusion has made stale |
| Environment.MeaningIsUnique | crates/cageforge-command/src/environment.rs:255-264 | that meaning is one environment |
| Environment.WithVar | crates/cageforge-command/src/environment.rs:327-343 | the new override is seen by every name that folds like it, all others see what they saw |
| Environment.WithoutVar | crates/cageforge-command/src/environment.rs:346-354 | the same for removals |
| Environment.CollectEnvironment | crates/cageforge-command/src/environment.rs:398-414 | fails exactly on an invalid entry, else keeps exactly the last entry of each folded name |
| Environment.RemoveName | crates/cageforge-command/src/environment.rs:416-424 | removes exactly the variable that folds like the name, even through a stale index |
| Environment.ApplyComposed | crates/cageforge-policy-compose/src/environment.rs:84-110 | succeeds exactly when the base is at most the least permissive of both |
| Environment.CompositionAddsNothing | crates/cageforge-policy-compose/src/environment.rs:98-109 | a composed result names only what the requested result names, up to folding, with the spelling and value it has there unless the ceiling sets it |
| Environment.TwoStepsCompose | crates/cageforge-policy-compose/src/environment.rs:84-110 | applying both specifications in turn gives each name a closed form of the two specifications and the input: nothing where the request yields no such name or the ceiling does not select it, else what the ceiling sets or lets through |
| Environment.CeilingDecides | crates/cageforge-policy-compose/src/environment.rs:84-110 | a name the ceiling removes is gone under every spelling; one it sets is set under its own spelling alone, exactly when the request yields it in some spelling and the ceiling selects it |
| Environment.CollectedIsValid | crates/cageforge-command/src/environment.rs:398-414 | a collected environment has valid names and values only |
| Environment.ComposedIsValid | crates/cageforge-policy-compose/src/environment.rs:84-110 | valid input and overrides compose to valid variables |
| EnvironmentDelivery.ComposedEnvironmentIsDelivered | crates/cageforge-linux/src/environment_transport.rs:16-50 | a composed environment within the limits is always read back from its frame |
| EnvironmentDelivery.ValidIsClean | crates/cageforge-linux/src/hardening/environment.rs:36-57 | validated names and values are clean in the frame, under any encoding in which NUL and `=` stand for themselves only |
| Environment.CompositionKeeps | crates/cageforge-policy-compose/src/environment.rs:84-110 | a variable the ceiling does not override passes unchanged exactly when the ceiling's filters let it |
| Environment.LeastPermissive | crates/cageforge-policy-compose/src/environment.rs:122-128 | the lesser of two bases in the order that admission uses |
| Environment.BaseIsAtMost | crates/cageforge-policy-compose/src/environment.rs:130-136 | admission is the order None, Core, All |
| TransferBudget.RunStaysWithinBudget | crates/cageforge-network-proxy/src/body.rs:44-66 | under every interleaving of any number of users, spurious failures included, the counter is the sum of the grants, never above the limit, and no more is written than was granted |
| TransferBudget.RetriesAreBounded | crates/cageforge-network-proxy/src/body.rs:49-65 | retries of one call that were not spurious never outnumber the limit |
| TransferBudget.RefusalIsJustified | crates/cageforge-network-proxy/src/relay.rs:90-97 | a refused amount does not fit under the limit at that moment |
| TransferBudget.ConflictIsProgress | crates/cageforge-network-proxy/src/relay.rs:98-106 | a real conflict means that another user got through |
| TransferBudget.UnlimitedWraps | crates/cageforge-network-proxy/src/relay.rs:86-89 | without a limit every attempt of every run is granted in full and the counter wraps at 64 bits |
| TransferBudget.FittingIsGranted | crates/cageforge-network-proxy/src/relay.rs:90-106 | in every run an attempt that has loaded the present counter is granted, in full and touching nobody else, if and only if the amount still fits |
| TransferBudget.EveryGrantIsWritten | crates/cageforge-network-proxy/src/relay.rs:57-80 | whatever the interleaving was, once the writers finish every granted byte is written |
| TransferBudget.StepKeeps | crates/cageforge-network-proxy/src/relay.rs:57-108 | every granted byte is written or still owed to a writer, after every step |
| TransferBudget.Counter.Add | crates/cageforge-network-proxy/src/body.rs:44-66 | among others that stay within the limit, all of the amount is added or none, and none only when it does not fit |
| ConnectDeadline.ConnectAuthorized | crates/cageforge-network-proxy/src/connect.rs:58-113 | returns an outcome if and only if the candidates explain it: the first to connect within its slice, the first the policy stops, a timeout when one was cut off or the deadline passed, else failure; exactly those with a turn were dialed, each with its slice |
| ConnectDeadline.ExplanationIsUnique | crates/cageforge-network-proxy/src/connect.rs:58-113 | no two outcomes are explained by the same candidates |
| ConnectDeadline.SlicesShrinkByPauses | crates/cageforge-network-proxy/src/connect.rs:84-94 | a later candidate gets no less than an earlier one, but for the time that passed outside dials |
| ConnectDeadline.SlicesNeverShrink | crates/cageforge-network-proxy/src/connect.rs:84-94 | where only dials take time, later candidates never get less |
| ConnectDeadline.SlicesAreFair | crates/cageforge-network-proxy/src/connect.rs:84-94 | every candidate gets at least an equal share of the timeout, but for the time that passed outside dials |
| ConnectDeadline.TimeIsConserved | crates/cageforge-network-proxy/src/connect.rs:63-99 | dials, pauses and what remains add up to the timeout until the deadline, and dialing alone never exceeds it |
| ConnectDeadline.OnlyPausesStarve | crates/cageforge-network-proxy/src/connect.rs:84-88 | no candidate finds the deadline passed unless time passed outside dials, and then at least an equal share of the timeout |
| ConnectDeadline.PausesCanStarve | crates/cageforge-network-proxy/src/connect.rs:84-88 | an input at which a candidate that would connect at once is never dialed |

## Left out

- Seatbelt text: rules are values, not S-expressions; the fixed base policy and the network rules are constant or thin text.
- Seatbelt sets: ancestors are listed in first-seen order where the original sorts them; no result depends on the order.
- Regex engines: the regex reader covers the syntax the translator can emit, and matching is by language, not by engine.
- Operating-system paths: how a platform splits a text into components, and how Windows folds case, are parameters; text is characters, not UTF-16 units or bytes.
- LexicalPath.WithinRoot: states the component rule only, as the profile builder uses it; NativePath has current directories, folding and device prefixes.
- Profile sections: description, approval, command line, standard streams and timeouts are merged by plain replacement and are not modelled.
- LinuxChild.Child.Wait: models the turns it is given; a wait that has not ended within them returns no status, because nothing bounds the life of a child.
- Resource internals: watchdog, gateway, monitor and synthetic targets are identities with outcomes of their calls.
- Frame writers: writing to a stream does not fail in the frame modules; in the handshake it may fail after any number of bytes.
- LocalIpc.WriteRules: the 16- and 32-bit overflow errors of the original cannot occur after validation and are not modelled.
- EnvironmentFrame.ReadEnvironment: lengths are 64-bit and fit the machine word, so the length-too-large error is not modelled.
- LaunchStream.ReceiveSetup: the checks of the gateway variables and the start of the bridge are two outcomes, and peer credentials are not modelled.
- Handshake: a child that is dead takes its whole process namespace with it, and wall-clock timeouts are failures at any step.
- ParentSpawn: what comes before the process is created, and building the handle afterwards, are not stages.
- Connecting: the outer timeout around all candidates, which a deadline inside already bounds, and the first policy question about the name are not modelled.
- TraceSupervisor.SupervisionIsLegal: the first stop of a new tracee is adopted and not judged, as in the original, so refusal is stated for known tracees.
- TraceEndpoint.ReadMemory: addresses do not wrap around at the end of the address space.
- System call numbers and byte order are those of x86-64 Linux.
- Seccomp filters, process hardening, Bubblewrap arguments and descriptor mapping: foreign calls or constant data.
- TransferBudget: memory is one atomic counter; a byte budget without a limit leaves the counter alone, a relay without one wraps it, and only the relay is stated as a run.
- Idle timeouts of bodies and relays, and the HTTP and SOCKS plumbing: thin wrappers over libraries.
- Name resolution of the proxy: port, count and emptiness checks of a resolver's answer would only add easy members.
- Command-line interface, diagnostics, schemas and Windows tables: presentation or constants.
