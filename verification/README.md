# Backup engine of `lib/util.js`, modelled in Dafny

This project models the decision logic of the backup tool's engine,
`lib/util.js`. That logic covers:

- reading the configuration and filling in defaults;
- checking for duplicate entries;
- expanding `%VAR%` placeholders in paths;
- formatting the clock reading;
- expanding the rename template;
- naming destinations;
- resolving an entry's sources, with the `match` wildcard;
- the three backup strategies (copy, 7z, zip);
- pruning old outputs down to the newest `keep`.

The file system is a map from absolute paths to files and directories.
Each node has a birth time, and each directory has its listing. The
platform's path functions (`path.resolve`, `path.normalize`, `path.join`,
`path.parse(p).base`) are uninterpreted function fields of `Paths.PathOps`.
Things outside the model are parameters:

- the clock reading (`DateStamp.DateTime`);
- the environment (`EnvPath.Env`);
- whether a removal succeeds (`removeOk`);
- whether the archiver succeeds (`archiveOk`);
- the file system after copying or archiving.

Modules, one per file:

| module | file | contents |
|---|---|---|
| Wrappers | wrappers.dfy | `Option`, `Result` |
| Text | text.dfy | digits and number rendering, ASCII case folding, global replacement `ReplaceAll` |
| Template | template.dfy | rename templates as pieces; chained replacement equals one-pass instantiation |
| JsReplace | jsreplace.dfy | JavaScript's `String.prototype.replace` with `$` patterns (the code as written) |
| DateStamp | datestamp.dfy | `getFormattedDate` |
| EnvPath | envpath.dfy | `resolvePath`: placeholder expansion, then resolve and normalize |
| Entries, Paths | entries.dfy, paths.dfy | the entry record, the path functions, the file system |
| Wildcard | wildcard.dfy | `convertWildcardToRegex` and what the compiled regex accepts |
| Rename | rename.dfy | `resolveRenamePattern`, `resolvePathTo` |
| Sources | sources.dfy | `convertFromToArray` |
| PrunePattern | prunepattern.dfy | the prune regex, parsed into literal / digit / any-character tokens |
| PruneSelect | pruneselect.dfy | newest-first sort and the keep/delete split |
| Prune | prune.dfy | `deleteOldBackupFilesOrFolders` |
| Backup | backup.dfy | `backupFileOrFolder`, `backup7z`, `backupZip` |
| Config | config.dfy | `readConfigFile` defaulting, `isFileOrFolderInBackup` |

### Behaviour worth noting

- **Unset variable.** An unset environment variable becomes the text `undefined`: the replacement function returns `undefined`, and JavaScript writes it as that text (`EnvPath.UnsetVariable`).
- **Source field.** The engine reads the sources from `element.from`. `Entries.FromSpec` models `from`, and a missing `from` is the error `FromNotAString`.
- **Wildcard anchoring.** The code wraps `^…$` around the `|`-joined alternatives of a `match` wildcard. So with `;` the first alternative is anchored only at the start and the last only at the end (`Wildcard.SeparatorAnchoring`).
- **Errors from pruning and archiving.**
  - A prune error rejects the promise of the copy and zip strategies.
  - Inside the 7z `end` handler, a prune error is never settled.
  - A zip write failure rejects.

  `Backup.Outcome` keeps these cases apart.
- **Prune pattern.** The prune pattern is built from the template text without regex escaping. A `.` in the template or the base name matches any character. Regex syntax other than `.`, `\d` and `\d{n}` gives the outcome `PatternOutsideModel`.

## Model

| member | source | states |
|---|---|---|
| Config.FillDefaults | lib/util.js:26-64 | every setting already present keeps its value; every listed setting is present afterwards; each added setting comes from the defaults list |
| Config.FillSpec | lib/util.js:26-64 | with distinct setting names, a missing setting gets exactly its default, a present one is unchanged, and nothing else is added |
| Config.FillComplete | lib/util.js:26-64 | an entry that already has every setting is left unchanged |
| Config.DefaultEntriesFailure | lib/util.js:25-27 | defaulting fails exactly when some entry is not an object, and it fails at the first such entry |
| Config.DefaultEntriesFilled | lib/util.js:25-65 | each defaulted entry is the same object with all settings present, its own settings unchanged, the missing ones at their defaults |
| Config.ReadConfigAccepts | lib/util.js:20-25 | accepted iff the document is an object whose `backup` is missing, `""` or an array of objects; a missing `backup` becomes `[]`; a non-object document and a non-iterable `backup` are the respective errors |
| Config.ReadConfigFills | lib/util.js:20-67 | after defaulting there is a `backup`; other top-level settings are unchanged; every entry has the eight settings, with `name`, `description`, `compression`, `subfolder`, `match`, `rename` at `""`, `active` at `true` and `keep` at `0` when missing |
| Config.ReadConfigIdempotent | lib/util.js:20-67 | defaulting an already defaulted document changes nothing |
| Config.IsFileOrFolderInBackup | lib/util.js:110-117 | true iff some entry's `from` is the normalized local path or the absolute path, with no `null` entry before it; fails iff a `null` entry comes before any listed one |
| EnvPath.NextPercent | lib/util.js:154 | the next `%` at or after the index, with none skipped |
| EnvPath.SubstituteText | lib/util.js:154 | text without `%` passes through unchanged |
| EnvPath.SubstituteVar | lib/util.js:154 | `%NAME%` with a non-empty `%`-free name is replaced by the variable's value |
| EnvPath.SubstituteSpell | lib/util.js:154 | on any path written as text and placeholders, every placeholder is replaced by its value and all text is kept |
| EnvPath.UnsetVariable | lib/util.js:154 | an unset variable becomes the text `undefined` |
| EnvPath.EmptyName | lib/util.js:154 | `%%` is not a placeholder and is kept |
| EnvPath.NoOverlap | lib/util.js:154 | matches do not overlap: `%A%B%` expands only `A` |
| DateStamp.Pad | lib/util.js:181-203 | a component is rendered as digits denoting its value, at least two of them, exactly two below 100 |
| DateStamp.GetFormattedDate | lib/util.js:169-210 | the timestamp is the date followed by the time; the time has 6 digits; with a four-digit year the date has 8 digits and the timestamp 14 |
| DateStamp.FieldsPadded | lib/util.js:181-209 | each component occupies its own two-digit slot of the timestamp, after the four-digit year |
| DateStamp.DecodeFormatted | lib/util.js:205-209 | round trip: decoding the timestamp gives back the clock reading |
| DateStamp.ExampleStamp | lib/util.js:169-210 | 2024-03-05 09:07:01 gives `20240305`, `090701`, `20240305090701` |
| Template.ReplaceRender | lib/util.js:222-238 | on a template whose every `/` starts a token (no `//`, no trailing `/`), one global replacement of `/k` fills exactly the `k` tokens, whatever the value |
| Template.ReplaceEachInstantiate | lib/util.js:218-241 | on a template whose only slashes start tokens, with every value slash-free except perhaps the last one filled, the chain of global replacements equals filling every token with its value in one pass, all other text kept verbatim |
| Template.InstantiateSlashFree | lib/util.js:218-241 | on a template whose every `/` starts a token (no `//`, no trailing `/`), with slash-free values and every token covered, the filled template has no `/` |
| Text.ReplaceAllConcat | lib/util.js:222 | global replacement distributes over a concatenation whose seam does not spell the token |
| Rename.RenameTemplate | lib/util.js:218-241 | on a template whose every `/` starts a token (no `//`, no trailing `/`), with a base name and entry name free of `/` (the subfolder may hold `/`, nested folders included), `/s`, `/d`, `/t`, `/o`, `/n`, `/b` are each replaced everywhere they occur by the timestamp, date, time, base name, entry name and subfolder |
| Rename.StraySlashSplices | lib/util.js:222-237 | a slash that starts no token joins inserted text: `//o` with base `nX` and name `N` gives `NX` |
| Rename.NameSplicesSubfolder | lib/util.js:222-237 | the chain re-scans inserted text: template `/n` with name `x/b` and subfolder `Y` gives `xY`, where one-pass filling gives `x/b` |
| Rename.NameUnused | lib/util.js:218-241 | on a template whose every `/` starts a token (no `//`, no trailing `/`), a template using only `/s`, `/d`, `/t`, `/o`, with a base name free of `/`, is named the same whatever the entry name and subfolder |
| Rename.RenameIsReplaceEach | lib/util.js:218-241 | the six replacements run in the order `/s`, `/d`, `/t`, `/o`, `/n`, `/b` |
| Rename.OtherTokensKept | lib/util.js:218-241 | any other `/x` keeps its spelling |
| Rename.ExampleRename | lib/util.js:218-241 | `/n_/d_/o` with name `N` and base `file.txt` on 2024-03-05 gives `N_20240305_file.txt` |
| Rename.ResolvePathTo | lib/util.js:250-282 | the folder is the resolved `to\subfolder`; an empty template keeps the base name, otherwise it is the expanded template; the path is the normalized folder, `\`, base name and extension, so it ends in base name plus extension |
| Rename.ExtensionChoice | lib/util.js:266-279 | exactly `7z` gives `.7z`, exactly `zip` gives `.zip`, everything else gives no extension |
| Wildcard.RegexRoundTrip | lib/util.js:429-435 | the regex text built by escaping and the three replacements denotes exactly the reference translation of the wildcard |
| Wildcard.StarMatches | lib/util.js:432 | `*` matches any run free of line terminators, the empty run included |
| Wildcard.OneMatches | lib/util.js:433 | `?` matches exactly one character (a Unicode scalar value) that is not a line terminator |
| Wildcard.PlainWildcardMatches | lib/util.js:429-435 | without operators a wildcard accepts exactly the names that spell it up to ASCII case, metacharacters included |
| Wildcard.WholeNameWithoutSeparator | lib/util.js:431-435 | without `;` the single alternative must match the whole name |
| Wildcard.SeparatorAnchoring | lib/util.js:431-435 | with `;` a name that starts with a match of the first alternative, or ends with a match of the last, is accepted |
| Wildcard.TwoExtensionsAcceptPrefix | lib/util.js:431-435 | `*.a;*.b` accepts every name containing a stem followed by `a`, whatever follows |
| Wildcard.GlobMatchConcat | lib/util.js:431-435 | matching a concatenation of token lists splits the name at some point |
| Sources.ConvertFromToArray | lib/util.js:289-343 | success always holds a non-empty list; a missing `from` fails as not a string; otherwise it fails iff nothing is gathered |
| Sources.ResolveSources | lib/util.js:289-343 | the loop over the configured paths computes the reference result |
| Sources.GatherLoop | lib/util.js:300-336 | appending, path by path, nothing for a missing path, the accepted children for a directory with a wildcard and the path itself otherwise yields the concatenation of the reference contributions in configured order |
| Sources.GatherConcat | lib/util.js:301-335 | the order of configured paths is kept |
| Sources.GatherMembership | lib/util.js:301-335 | a path is resolved iff it is in the contribution of some configured path |
| Sources.MatchingChildrenMembership | lib/util.js:310-323 | a directory's contribution is exactly the joins of the children the wildcard accepts |
| Sources.MatchingChildrenConcat | lib/util.js:316-326 | filtering then joining keeps listing order: the children kept from two consecutive stretches of a listing are those of the first followed by those of the second |
| Sources.ContributionCases | lib/util.js:302-334 | a missing path contributes nothing; a directory with a non-empty `match` contributes only accepted children; any other existing path contributes itself |
| Sources.SingleIsOneElementList | lib/util.js:294-298 | a single path behaves exactly as a one-element list |
| Sources.MissingPathIgnored | lib/util.js:330-334 | a missing path adds nothing wherever it appears |
| Sources.MissingPaths | lib/util.js:330-334 | every path warned about is absent from the file system |
| PrunePattern.WidthFixesPosition | lib/util.js:380-387 | the pattern is anchored only at the end: a name matches iff its last characters match |
| PrunePattern.PrefixStillMatches | lib/util.js:380-387 | a name with any extra prefix still matches |
| PrunePattern.PatternTextIsInstantiate | lib/util.js:364-379 | the pattern text is the template with `/s`, `/d`, `/t`, `/o` filled by `\d{14}`, `\d{8}`, `\d{6}` and the base name, plus `.7z` or `.zip` |
| PrunePattern.SuffixIsExtension | lib/util.js:376-378 | the pattern's suffix is the extension the naming adds |
| PrunePattern.ParseWholePattern | lib/util.js:364-383 | for a template of safe text and tokens, the regex parses into the tokens of its pieces followed by the literal extension |
| PrunePattern.ClockUnit14 | lib/util.js:365 | `\d{14}` reads as 14 digit tokens |
| PrunePattern.ClockUnit8 | lib/util.js:366 | `\d{8}` reads as 8 digit tokens |
| PrunePattern.ClockUnit6 | lib/util.js:367 | `\d{6}` reads as 6 digit tokens |
| PrunePattern.OwnOutputMatches | lib/util.js:364-387 | for a template of safe literals and `/s`, `/d`, `/t`, `/o` tokens and any entry name and subfolder, the name the destination step gives an output, extension included and behind any prefix, is matched by the pattern the prune builds for the same source |
| PrunePattern.UntranslatedTokenNeverMatches | lib/util.js:364-383 | a template with `/n`, `/b` or another untranslated token never matches a name without `/`, so it never prunes |
| PruneSelect.Insert | lib/util.js:407-409 | insertion keeps the elements and adds one |
| PruneSelect.InsertNewestFirst | lib/util.js:407-409 | insertion keeps a newest-first list newest first |
| PruneSelect.SortNewestFirst | lib/util.js:407-409 | the result is newest first and a permutation of the input; outputs born at the same time keep their listing order, as a stable sort leaves them |
| PruneSelect.StableOrderUnique | lib/util.js:407-409 | two newest-first sequences with the same candidates, in the same order, at every birth time are equal |
| PruneSelect.SortIsTheStableSort | lib/util.js:407-412 | every newest-first arrangement keeping equal birth times in listing order is the sort's result, so the deleted outputs are fixed even among equal birth times |
| PruneSelect.SplitKeepsNewest | lib/util.js:390-420 | survivors and victims together are the matches; exactly `count - keep` are victims when more than `keep` match, none otherwise; no victim is newer than any survivor |
| Prune.Stat | lib/util.js:395-404 | success gives each name's birth time in order; it fails iff some matched path is missing |
| Prune.RemoveAll | lib/util.js:412-420 | every victim adds one record, either removed or failed, and earlier records are kept |
| Prune.RemoveAllAttempts | lib/util.js:412-420 | removal is tried once for every victim, whether or not earlier ones failed |
| Prune.RemoveAllEffect | lib/util.js:412-420 | recorded removals succeeded, recorded failures failed, and the file system loses exactly the removed paths |
| Prune.MatchingMembership | lib/util.js:385-387 | the matched names are exactly the listed names the pattern accepts |
| Prune.PruneEntry | lib/util.js:353-355 | an empty template or `keep` 0 changes nothing |
| Prune.WithinKeepNothingRemoved | lib/util.js:390-392 | with at most `keep` matches a source's prune changes nothing |
| Prune.BeyondKeepOldestRemoved | lib/util.js:385-420 | with more than `keep` matches, exactly `count - keep` removals are tried; they are the oldest, none newer than any match kept |
| Prune.NotDeleted | lib/util.js:385-387 | the corrected step never lists a name this prune has removed |
| Prune.CorrectedNeverStatFails | lib/util.js:361-404 | when the listing names existing paths, the corrected prune never fails for a missing path |
| Prune.StaleListingAborts | lib/util.js:361-404 | as written, two sources, `/s` and `keep` 1 make the second source stat the output the first one removed, and the prune fails |
| Prune.CorrectedRemovesOnce | lib/util.js:361-420 | in the same situation the corrected prune removes the older output once and succeeds |
| Backup.RunBackup | lib/util.js:442-574 | skipped iff the sources do not resolve, with that error; archive failures only for the archive strategies; an archive run writes one target |
| Backup.CopyPrunesEverySource | lib/util.js:442-477 | copying names one destination per source at its own clock reading and prunes for every source |
| Backup.ArchivePrunesFirstOnly | lib/util.js:484-574 | an archive is named after the first source and pruned for it alone; a 7z prune failure leaves the run unsettled, a zip one rejects |
| Backup.ArchiveFailureNoPrune | lib/util.js:500-564 | after a failed archive nothing is pruned; 7z logs it, zip rejects |
| Backup.ArchiveNamedAfterFirst | lib/util.js:496-550 | the archive path is the normalized resolved `to\subfolder` (the folder the prune lists), `\`, the first source's expanded name and the extension |
| Backup.SingleSourceSamePrune | lib/util.js:476-573 | with a single source, copying and archiving name and prune the same |
| Backup.NoTemplateNoPrune | lib/util.js:353-355 | without a template or with `keep` 0 every strategy finishes with nothing removed |
| JsReplace.AgreesWithoutDollar | lib/util.js:222-238 | without a `$` in the value, JavaScript's replacement is the verbatim one |
| JsReplace.DollarInBaseCounterexample | lib/util.js:232 | as written, template `/o` and base `a$$b` give `a$b` |

## Left out

- File-system effects: reading the configuration file, `mkdir` of the destination folder, copying, and the archivers' writing. The file system after copying or archiving is a parameter.
- Recursive removal of a directory's contents. A removal drops only the path itself.
- JSON parsing and saving the configuration. The model starts from the parsed value.
- `Config.Json`: numbers are integers, and object key order is not kept. A fractional `keep` is outside the model.
- The archive back-ends (`node-7z`, `AdmZip`) and their event callbacks. Only their success or failure is modelled.
- `Promise.all` concurrency in the stat step. The model stats in order and reports the first missing path.
- The log output and its colouring.
- Case folding beyond ASCII in the `match` wildcard (the `i` flag). Non-ASCII letters compare exactly.
- Regex syntax in the prune pattern other than literals, `.`, `\d` and `\d{n}`. Such a template or base name gives `PatternOutsideModel` instead of a match.
- Operating-system path semantics. `path.resolve`, `path.normalize`, `path.join` and `path.parse().base` are uninterpreted.
- Integer widths. Numbers are unbounded, and the year is rendered as JavaScript renders a moderate integer.
- Settings whose JSON type differs from the documented one. `Entries.Entry` holds each setting at its documented type: `from` a string or list of strings, the texts as strings, `keep` an integer and `active` a boolean. The coercions and TypeErrors of other types are not modelled. For example, `keep: "0"` passes the `keep === 0` test and then compares and indexes as `0`, which deletes every match. A numeric `from` throws at `.replace`, and `rename: null` counts as no template.
- Backup.RunBackup: runs the corrected program, not the code as written. It prunes with `Prune.DeleteOldBackups`, which leaves out names already removed by this prune, where the code lists the folder once and rejects (`Prune.StaleListingAborts`). It also names destinations with values inserted verbatim, where the code expands `$` patterns in them (`JsReplace.DollarInBaseCounterexample`). Both differences are the rows of "## Findings".
- Template.ReplaceRender: stated for a template whose every `/` starts a token (`//` and a trailing `/` are excluded). Such a stray `/` is neither literal text nor a token in the piece reading of a template, so the lemma says nothing about it. In the chain of replacements, a stray `/` can combine with text an earlier pass inserted (`Rename.StraySlashSplices`).
- Template.InstantiateSlashFree: stated for a template whose every `/` starts a token. A stray `/` is literal text and stays in the result.
- Rename.RenameTemplate: stated for a template whose every `/` starts a token, and for a base name and an entry name without `/`. With a stray `/`, inserted text can complete a token for a later pass: `Rename.StraySlashSplices` shows `//o` with base `nX` and name `N` becoming `NX`. The chain of replacements re-scans the text it has inserted, so a `/b` inside the entry name (or a `/n` or `/b` inside the base name) is replaced in turn: `Rename.NameSplicesSubfolder` shows name `x/b` with subfolder `Y` becoming `xY`. `Rename.ResolveRenamePattern` models that chain as written, so the rest of the model behaves the same way. A base name from `path.parse(p).base` holds no `/` on Windows, where `/` separates paths.
- Rename.ResolvePathTo: the base name, entry name and subfolder are inserted into the template verbatim. The code passes them as replacement strings, which expand `$$`, `$&`, `` $` `` and `$'` (first row of "## Findings"). The prune pattern (`PrunePattern.SourcePattern`) inserts the base name verbatim for the same reason.
- Wildcard.OneMatches: names are sequences of Unicode scalar values. The regexes carry no `u` flag, so `?` in a wildcard and `.` in the prune pattern (`PrunePattern.PAny`) take one UTF-16 code unit. Names with characters outside the Basic Multilingual Plane therefore differ: `?.txt` accepts an emoji followed by `.txt` here, but the code does not.
- `lib/commands.js`, `index.js`, `source/` and `test/test.js`: command-line plumbing, and an earlier revision without logic of its own. `isFileOrFolderInBackup` is modelled as called, on the `backup` list.

## Findings

| source | as written | input that shows it | evidently intended | confidence | as-written member | corrected member |
|---|---|---|---|---|---|---|
| lib/util.js:232, lib/util.js:375 | the base name (and entry name and subfolder) is the replacement string of `String.prototype.replace`, so `$$`, `$&`, `` $` ``, `$'` in it are expanded | template `/o`, source named `a$$b`: the output is named `a$b` | the base name inserted verbatim | not executed | JsReplace.DollarInBaseCounterexample | Rename.RenameTemplate |
| lib/util.js:361, lib/util.js:395-404 | the destination folder is listed once before the loop over sources, so a name removed for one source is matched and stat-ed again for the next; the stat rejects and the whole prune fails | two sources, template `/s`, `keep` 1, two 14-digit outputs with birth times 1 and 2 | names already removed by this prune left out, and pruning finishes | not executed | Prune.StaleListingAborts | Prune.CorrectedRemovesOnce |

The rest of the model uses the corrected definitions. `Rename.ResolveRenamePattern` and `PrunePattern.SourcePattern` insert values verbatim. `Backup` prunes with `Prune.DeleteOldBackups`, which leaves out names already removed; `Prune.CorrectedNeverStatFails` states this for every input.
