# Icon build pipeline (dga-icons), modelled in Dafny

This project models the build pipeline of the dga-icons repository. The `build-icons` command:

- scans an icons directory for nine fixed style directories;
- reads every `.svg` file of each style into a record (name, raw content, `viewBox`, path elements);
- for the requested package, writes one TypeScript module per icon with its markup embedded as a JSON string literal;
- writes a barrel file per style and a top-level barrel re-exporting the per-style barrels.

The model is split into one module per source file:

| module | file | source |
|---|---|---|
| `FileSystem` | filesystem.dfy | the file-system snapshot, `path.join`, the `.svg` filter, writes |
| `Text` | text.dfy | JavaScript string operations: `indexOf`, `replace` with a string pattern, `trim`, `join`, `split` |
| `Json` | json.dfy | `JSON.stringify` on a string, and a decoder for JSON strings (section 7 of RFC 8259) |
| `AllStyles` | read_all_styles.dfy | `ICON_STYLES`, `readAllStyles` |
| `Svg` | read_svg.dfy | `readSvg` |
| `SvgDirectory` | read_svg_directory.dfy | `readSvgDirectory` |
| `SvgFiles` | get_svg_files.dfy | `getSvgFiles` |
| `IconsObject` | build_icons_object.dfy | `buildIconsObject` |
| `IconFiles` | generate_icon_files.dfy | `generateComponentCode`, `generateIconFiles` |
| `StyleExports` | generate_style_exports.dfy | `generateStyleExports` |
| `ExportsFile` | generate_exports_file.dfy | `generateExportsFile` |
| `Cli` | cli.dfy | option resolution and `main` of `cli.ts` |

## Modelling choices

- **File system.** The file system is a fixed `Snapshot`:
  - a map from directory path to listing;
  - a map from file path to text.
  A path missing from the first map is a `readdir` that throws. A path missing from the second is a `readFile` that throws.
- **Writes.** Writes are an ordered sequence of `FileWrite(path, content)`. `FileSystem.Apply` folds them onto a disk in order, so a later write to the same path replaces an earlier one.
- **`path.join`.** It is `dir + "/" + name`, without normalisation.
- **Parameters.** Two things are function parameters, so every property holds for any choice of them:
  - `parse`, the XML parse of cheerio: `None` when the text does not parse, otherwise the root's `viewBox` and the `path` elements in document order, each as an attribute map;
  - `pascal`, the `toPascalCase` conversion.
- **`Promise.all`.** It is modelled as a sequential, order-preserving map. When several reads fail, the error reported is that of the first failing file in listing order.
- **Imperative code stays imperative.** These get a `method` with a loop, proved equal to a function of its inputs:
  - the `for` loop of `readAllStyles`;
  - the `reduce` of `buildIconsObject`;
  - the write loop of `generateIconFiles`;
  - the step loop of `main`.
  The pure parts are functions.
- **Undefined option values.** `cli.ts` takes `args[args.indexOf(flag) + 1]`, which is `undefined` when the flag is last. The model keeps this as `None`; it does not substitute the default.
  - An undefined icons directory makes `join` throw at tools/build-helpers/src/readAllStyles.ts:28. That line is outside the `try`, so the run exits with code 1.
  - An undefined output directory throws at the first `join` of tools/build-icons/building/generateIconFiles.ts:10, or at tools/build-icons/building/generateExportsFile.ts:13 when no style was found. This happens only when a package is given. The model reports it as `PathUndefined`.
- **`if (packageName)`.** This is a truthiness test, so an empty package name skips generation like an absent one.

### Behaviour of the code that departs from the obvious reading

- **Icon name.** One would expect the file name without its extension. tools/build-helpers/src/readSvg.ts:36 removes the first `.svg` anywhere in the last path segment, so `a.svg.svg` is named `a.svg`.
- **`viewBox`.** The default `0 0 24 24` applies when the attribute is absent and also when it is empty, because tools/build-helpers/src/readSvg.ts:41 uses `||`.
- **Name collisions.** Nothing checks whether two icon names map to one component name. The later write wins, and the per-style barrel repeats the line. The model states exactly that behaviour (`IconFiles.IconFilesOnDisk`, `StyleExports.StyleExportsLines`).
- **Flag with no value.** The help text (tools/build-icons/cli.ts:19-20) announces the defaults `icons/` and `src/icons/`. The code uses them only when the flag is absent. A flag in last position yields `undefined`, and with a package that ends the run with exit code 1 (`Cli.Pipeline`).
- **Second read.** `generateStyleExports` reads the style directory again (tools/build-icons/building/generateStyleExports.ts:9). The model keeps both reads as two calls, but both see the same snapshot, so the second cannot fail once the first has succeeded (`Cli.BarrelReadAfterIconRead`); see "Left out".

## Model

| member | source | states |
|---|---|---|
| AllStyles.ReadAllStyles | tools/build-helpers/src/readAllStyles.ts:24-44 | the loop over `ICON_STYLES` returns the canonical scan: one entry for each style whose listing succeeds, in the order of `ICON_STYLES` |
| AllStyles.Scanned | tools/build-helpers/src/readAllStyles.ts:27-41 | the entries after the first n iterations of the loop; what it holds is stated by `AllStyles.ScanOrder`, `AllStyles.ScanMembership` and `AllStyles.ScanEntries` |
| AllStyles.ScanStyle | tools/build-helpers/src/readAllStyles.ts:28-40 | one iteration: the entry `{style, path, files}` when `readdir` succeeds, nothing when it throws; stated by `AllStyles.PushedStyles` and `AllStyles.ScanEntries` |
| AllStyles.AllStylesSpec | tools/build-helpers/src/readAllStyles.ts:4-14 | at most 9 entries; the styles strictly follow canonical order, so there are no repeats; a style is present if and only if its directory lists, even with no `.svg` file |
| AllStyles.ScanOrder | tools/build-helpers/src/readAllStyles.ts:27 | after the first n styles: at most n entries, all among the first n styles, in strictly increasing canonical position |
| AllStyles.ScanMembership | tools/build-helpers/src/readAllStyles.ts:27-40 | after the first n styles, a style is kept if and only if it is among those n and its listing succeeds; a failing listing is skipped and the scan goes on |
| AllStyles.PushedStyles | tools/build-helpers/src/readAllStyles.ts:29-40 | one iteration pushes an entry of its own style when the listing succeeds, and nothing when it throws |
| AllStyles.PositionIndex | tools/build-helpers/src/readAllStyles.ts:4-14 | `ICON_STYLES` names each of the nine styles once, so a style's position in the list is its canonical index |
| AllStyles.ScanEntries | tools/build-helpers/src/readAllStyles.ts:28-37 | each entry's `path` is `join(iconsDir, style)`, that path lists, and `files` is exactly the `.svg` entries of the listing in listing order |
| FileSystem.SvgEntries | tools/build-helpers/src/readAllStyles.ts:31 | the filter keeps exactly the entries ending in `.svg`; never longer than the listing; equal to the listing if and only if every entry ends in `.svg` |
| FileSystem.ListDir | tools/build-helpers/src/getSvgFiles.ts:5 | `readdir` succeeds if and only if the directory is in the snapshot; it returns the listing or fails naming the path |
| FileSystem.ReadFile | tools/build-helpers/src/readSvg.ts:18 | `readFile` succeeds if and only if the file is in the snapshot; it returns the file's text or fails naming the path |
| FileSystem.JoinInjective | tools/build-helpers/src/getSvgFiles.ts:8 | joining two names onto the same directory gives the same path only when the names are equal |
| FileSystem.ApplyLastWins | tools/build-icons/building/generateIconFiles.ts:20 | after a sequence of writes, a path holds the content of its last write |
| FileSystem.ApplyUntouched | tools/build-icons/building/generateIconFiles.ts:20 | a path no write names keeps its previous state, present or absent |
| Svg.ReadSvg | tools/build-helpers/src/readSvg.ts:17-44 | success if and only if the file reads and parses; a missing file fails as unreadable and a text that does not parse fails as malformed, each naming the path; the record has the icon name of the path and the raw text unmodified; `viewBox` is the root attribute when present and non-empty, otherwise `0 0 24 24`; there is one path record per `path` element, in document order |
| Svg.ToPathData | tools/build-helpers/src/readSvg.ts:24-32 | `d` is the attribute, or `''` when it is absent (an empty one stays `''`); `fill`, `stroke` and `opacity` are copied as optionals; `stroke-width` becomes `strokeWidth` |
| Svg.LastSegment | tools/build-helpers/src/readSvg.ts:36 | `split('/').pop()`: the longest suffix with no `/`, preceded by `/` unless it is the whole path |
| Svg.LastSegmentOfJoin | tools/build-helpers/src/readSvg.ts:36 | the last segment of `join(dir, name)` is `name` when `name` holds no `/` |
| Svg.IconNameOfFile | tools/build-helpers/src/readSvg.ts:36 | a file `n.svg<rest>` in any directory, with no `/` in `n.svg<rest>`, is named `n<rest>` when `n` holds no `.svg`: only the first `.svg` is removed |
| Svg.DoubleExtensionName | tools/build-helpers/src/readSvg.ts:36 | the name is not a suffix strip: `a.svg.svg` is named `a.svg` |
| Svg.IconName | tools/build-helpers/src/readSvg.ts:36 | the last path segment with its first `.svg` removed; stated by `Svg.LastSegment`, `Svg.IconNameOfFile` and `Svg.DoubleExtensionName` |
| SvgDirectory.ReadAll | tools/build-helpers/src/readSvgDirectory.ts:9-11 | the batch succeeds if and only if every file read succeeds; then element i is the record of file i; on failure, the error is that of the first failing file, with no partial list |
| SvgDirectory.ReadSvgDirectory | tools/build-helpers/src/readSvgDirectory.ts:5-6 | a directory that does not list fails with its path |
| SvgDirectory.ReadSvgDirectorySpec | tools/build-helpers/src/readSvgDirectory.ts:6-11 | for a directory that lists, only the `.svg` entries are read; success if and only if all of them read; one record per entry in listing order, each holding that file's text |
| SvgDirectory.DirectoryNames | tools/build-helpers/src/readSvgDirectory.ts:7-9 | for a directory that reads, record i is named after `.svg` entry i with its first `.svg` removed, when that entry holds no `/` |
| SvgFiles.GetSvgFiles | tools/build-helpers/src/getSvgFiles.ts:4-5 | fails if and only if the directory does not list, with its path as the error |
| SvgFiles.GetSvgFilesSpec | tools/build-helpers/src/getSvgFiles.ts:6-8 | for a directory that lists, output i is `join(dirPath, e)` for the i-th `.svg` entry `e`, in listing order; never longer than the listing, equal in length if and only if every entry ends in `.svg` |
| SvgFiles.DirectoryReadsSvgFiles | tools/build-helpers/src/readSvgDirectory.ts:7-9 | for a directory that reads, `readSvgDirectory` is `readSvg` mapped over the paths that `getSvgFiles` returns |
| IconsObject.BuildIconsObject | tools/build-helpers/src/buildIconsObject.ts:7-12 | the `reduce` loop builds the name-keyed fold of the records, in input order |
| IconsObject.IndexedKeys | tools/build-helpers/src/buildIconsObject.ts:8-11 | the key set is exactly the set of record names; each value's `name` is its key |
| IconsObject.IndexedLastWins | tools/build-helpers/src/buildIconsObject.ts:9 | a record with no later record of the same name is the value stored under its name, so for a duplicated name the last one wins |
| IconsObject.IndexedSize | tools/build-helpers/src/buildIconsObject.ts:8-11 | no more entries than records; exactly as many when names are distinct; empty input gives the empty map |
| IconsObject.Indexed | tools/build-helpers/src/buildIconsObject.ts:8-11 | the fold of the records into a map, each record overwriting its name's entry; stated by `IconsObject.IndexedKeys`, `IconsObject.IndexedLastWins` and `IconsObject.IndexedSize` |
| IconFiles.OpenTagAt | tools/build-icons/building/generateIconFiles.ts:32 | a match of `<svg[^>]*>` at i runs from `<svg` to the first `>` after it; there is no match when no `>` follows |
| IconFiles.FindOpenTag | tools/build-icons/building/generateIconFiles.ts:32 | the leftmost match: it starts at the least position with a match, and there is none earlier |
| IconFiles.StripAtFirstTag | tools/build-icons/building/generateIconFiles.ts:32 | removing the leftmost match cuts exactly that tag and leaves the text around it untouched |
| IconFiles.StripOfSvg | tools/build-icons/building/generateIconFiles.ts:32 | for `a<svg t>rest` with no `<svg` in `a` and no `>` in `t`, the strip gives `a + rest`, whatever later tags `rest` holds |
| IconFiles.StripOpenTag | tools/build-icons/building/generateIconFiles.ts:32 | `replace(/<svg[^>]*>/, '')`: the leftmost match is cut, and the text is unchanged when there is none; stated by `IconFiles.FindOpenTag`, `IconFiles.StripAtFirstTag` and `IconFiles.StripOfSvg` |
| IconFiles.Inner | tools/build-icons/building/generateIconFiles.ts:31-34 | the opening tag stripped, then the first `</svg>`, then `trim`; stated by `IconFiles.InnerOfSvg` and `IconFiles.InnerIsTrimmed` |
| IconFiles.InnerOfSvg | tools/build-icons/building/generateIconFiles.ts:31-34 | when `a` holds no `<svg`, `t` no `>`, and `a + m` no `</svg>`, the inner markup of `a<svg t>m</svg>b` is `trim(a + m + b)`; later `<svg` and `</svg>` are untouched |
| IconFiles.InnerIsTrimmed | tools/build-icons/building/generateIconFiles.ts:34 | the inner markup has no leading or trailing JavaScript whitespace |
| Text.Trim | tools/build-icons/building/generateIconFiles.ts:34 | `trim` returns a slice of its input with no whitespace at either end; only whitespace lies outside the slice |
| Text.ReplaceFirstAfterPrefix | tools/build-icons/building/generateIconFiles.ts:33 | `replace` with a string pattern changes only the first occurrence: `a + p + b` becomes `a + rep + b` when `a` holds no `p` and the first character of `p` does not recur in `p` (true of `.svg`, `</svg>` and `\n`) |
| Text.ReplaceFirst | tools/build-icons/building/generateIconFiles.ts:33 | `replace` with a string pattern: only the first occurrence, found by `indexOf`, is replaced; stated by `Text.ReplaceFirstAfterPrefix` for patterns whose first character does not recur in them |
| Text.IndexOfFrom | tools/build-helpers/src/readSvg.ts:36 | the search returns the least occurrence at or after `from`, or none when there is none |
| IconFiles.ComponentCode | tools/build-icons/building/generateIconFiles.ts:47-48 | any package other than `react` gets exactly `export const N = ` + literal + `;\n` |
| IconFiles.ComponentCodeEmbedsMarkup | tools/build-icons/building/generateIconFiles.ts:36-48 | in both templates, the text between the fixed head and tail is a JSON string that decodes to the inner markup exactly; the `react` template is chosen only for the package `react` |
| Json.Escape | tools/build-icons/building/generateIconFiles.ts:40 | the escaped body of `JSON.stringify` holds no C0 control character (below U+0020) |
| Json.EscapeDecodes | tools/build-icons/building/generateIconFiles.ts:47 | decoding an escaped body, up to the closing quote, gives back the original text |
| Json.QuoteDecodes | tools/build-icons/building/generateIconFiles.ts:40 | `JSON.stringify(s)` is a JSON string (section 7 of RFC 8259) that decodes to `s` |
| Json.Quote | tools/build-icons/building/generateIconFiles.ts:40-47 | `JSON.stringify` on a string: the escaped body between two quotes; stated by `Json.Escape` and `Json.QuoteDecodes` |
| IconFiles.IconPathInjective | tools/build-icons/building/generateIconFiles.ts:10-18 | icon paths `<outputDir>/<style>/<N>.tsx` of one style are equal only for equal component names |
| IconFiles.IconWritesAt | tools/build-icons/building/generateIconFiles.ts:15-21 | one write per record, in read order; write i goes to `<outputDir>/<style>/<toPascalCase(name_i)>.tsx` and holds that record's generated code |
| IconFiles.IconWrites | tools/build-icons/building/generateIconFiles.ts:15-21 | the writes of the loop over the records, in order; stated by `IconFiles.IconWritesAt` and `IconFiles.IconFilesOnDisk` |
| IconFiles.IconFiles | tools/build-icons/building/generateIconFiles.ts:13 | succeeds if and only if `readSvgDirectory` succeeds, and fails with its error |
| IconFiles.GenerateIconFiles | tools/build-icons/building/generateIconFiles.ts:5-24 | the write loop issues exactly the writes of the style's records in order, or the read error |
| IconFiles.IconFilesOnDisk | tools/build-icons/building/generateIconFiles.ts:15-21 | on disk, the last record with a given component name decides that file's content |
| StyleExports.ExportLines | tools/build-icons/building/generateStyleExports.ts:12-17 | one line per record, in read order; line i is `export { default as N } from './N.js';` with `N = toPascalCase(name_i)` |
| StyleExports.StyleExports | tools/build-icons/building/generateStyleExports.ts:5-21 | succeeds if and only if its `readSvgDirectory` succeeds, failing with that error; the path is `<outputDir>/<style>/index.ts` |
| StyleExports.StyleExportsLines | tools/build-icons/building/generateStyleExports.ts:17-20 | an empty directory gives `"\n"`; otherwise splitting the text at line feeds gives the export lines in order, duplicates kept, then one empty line from the single trailing `\n`; this holds when no component name holds a line feed |
| StyleExports.StyleExportsText | tools/build-icons/building/generateStyleExports.ts:12-20 | the export lines joined by `\n`, plus one `\n`; stated by `StyleExports.StyleExportsLines` |
| Text.SplitJoin | tools/build-icons/building/generateStyleExports.ts:17 | for one or more lines free of the separator: joined by it, they split back into the same lines |
| Text.JoinWithTrailing | tools/build-icons/building/generateStyleExports.ts:20 | for one or more lines: a trailing separator after the join is the join of the lines with one empty line added |
| ExportsFile.StyleLines | tools/build-icons/building/generateExportsFile.ts:9-10 | one line per style directory, in input order; each is `export * from './<style>/index.js';` |
| ExportsFile.ExportsFile | tools/build-icons/building/generateExportsFile.ts:13-14 | the top-level barrel is written to `<outputDir>/index.ts` |
| ExportsFile.ExportsFileLines | tools/build-icons/building/generateExportsFile.ts:9-14 | empty input gives `"\n"`; otherwise splitting at line feeds gives the style lines in order, then one empty line |
| Cli.FirstIndex | tools/build-icons/cli.ts:31 | `indexOf`: none if and only if the flag is absent; otherwise the least position holding the flag |
| Cli.FlagValueFirst | tools/build-icons/cli.ts:30-40 | a flag's value is the argument right after its first occurrence, whatever later occurrences say |
| Cli.FlagValueLast | tools/build-icons/cli.ts:31 | a flag whose only occurrence is the last argument yields no value |
| Cli.FlagValue | tools/build-icons/cli.ts:30-40 | `args[args.indexOf(flag) + 1]`, `undefined` past the end; stated by `Cli.FlagValueFirst` and `Cli.FlagValueLast` |
| Cli.ResolveOptions | tools/build-icons/cli.ts:30-40 | `--icons-dir` defaults to `icons` and `--output` to `src/icons` when absent; `--package` is undefined when absent; a given flag takes its looked-up value |
| Cli.Pipeline | tools/build-icons/cli.ts:10-75 | the exit code is 0 or 1; help anywhere in the arguments means no step and exit 0; an undefined icons directory means exit 1 with no writes; no or empty package means no writes and exit 0; an undefined output directory means no writes, and with a package it means exit 1 (the throw at tools/build-icons/building/generateIconFiles.ts:10 or tools/build-icons/building/generateExportsFile.ts:13) |
| Cli.Run | tools/build-icons/cli.ts:49-75 | `main`'s loop over the scanned styles produces exactly the outcome of the pipeline |
| Cli.StyleStepsComplete | tools/build-icons/cli.ts:61-64 | when every style directory reads, the loop writes each style's icon files and then its barrel, style after style in order |
| Cli.StyleStepsAbort | tools/build-icons/cli.ts:61-74 | the first style whose directory fails stops the loop with that read's error; the writes of the earlier styles remain and none of that style's are made |
| Cli.StyleSteps | tools/build-icons/cli.ts:61-64 | the per-style loop: icon files, then barrel, stopping at the first error; stated by `Cli.StyleStepsComplete` and `Cli.StyleStepsAbort` |
| Cli.Finish | tools/build-icons/cli.ts:66-74 | after the loop, the top-level barrel and exit 0, or exit 1 on an error; stated by `Cli.PipelineCompletes` and `Cli.PipelineAborts` |
| Cli.BarrelReadAfterIconRead | tools/build-icons/building/generateStyleExports.ts:9 | in the model the barrel's read of the style directory succeeds whenever the icon files' read did, since both see one snapshot |
| Cli.PipelineCompletes | tools/build-icons/cli.ts:59-70 | with a package and readable styles, each scanned style in scan order gets its icon files and then its barrel, the top-level barrel comes last, and the exit code is 0 |
| Cli.PipelineAborts | tools/build-icons/cli.ts:71-74 | when scanned style k is the first whose directory fails, the exit code is 1 and only the files of the styles before k were written |
| Cli.StyleWritesLayout | tools/build-icons/cli.ts:62-63 | for a style directory that reads, the style's share is its icon modules in read order, then its barrel at `<outputDir>/<style>/index.ts` |

## Left out

- File-system I/O is a snapshot and a list of writes. The model does not include:
  - `mkdir` (tools/build-icons/building/generateIconFiles.ts:11);
  - failures of `writeFile` (permissions, full disk, a missing parent directory). For example, with a package and no style directory found, nothing creates `<outputDir>` before tools/build-icons/building/generateExportsFile.ts:13-14 writes `<outputDir>/index.ts`. If that directory does not exist, the code fails with ENOENT and exits with 1, while `Cli.Finish` and `Cli.PipelineCompletes` give that write and exit 0;
  - reads seeing files the same run wrote.
- `path.join` normalisation (`.`, `..`, repeated or trailing `/`, absolute second arguments) is not modelled. `join` is plain concatenation with `/`.
- The XML parse of cheerio (tools/build-helpers/src/readSvg.ts:19-23) is the parameter `parse`: its leniency and which elements it finds are not modelled.
- `toPascalCase` is not among the modelled files. It is the uninterpreted parameter `pascal`, and nothing is assumed about collisions under it.
- Changes to the file system during a run are not modelled. Both reads of a style directory see one snapshot, so the second read never fails after the first succeeded (`Cli.BarrelReadAfterIconRead`). The model therefore does not capture a run that writes a style's icon modules and then fails before its barrel, as when a listing or file changes between the reads or a transient error such as EMFILE occurs.
- Concurrency of `Promise.all` (tools/build-helpers/src/readSvgDirectory.ts:11): when several reads fail, the code rejects with whichever fails first in time. The model reports the first failure in listing order.
- `console` output, the warning for a missing style, the help text, and `process.exit` are left out. Only the exit code is recorded.
- A JavaScript object's special keys are not modelled: `buildIconsObject` assigning to a key such as `__proto__` does not add an entry. The model is a plain map.
- Strings are sequences of Unicode scalar values, not UTF-16 code units. A lone surrogate in a file, which `JSON.stringify` would escape as `\udxxx`, cannot be represented.
- Json.Escape: states only that the body holds no C0 control character (below U+0020); the exact escape table is the body of `EscapeChar`, and its meaning is what `Json.QuoteDecodes` proves.
- IconFiles.ComponentCode: states the exact text only for the plain template. For the `react` template, what is stated is that its literal decodes to the inner markup (`IconFiles.ComponentCodeEmbedsMarkup`).
- tools/rollup-plugins/plugins.js is bundler configuration and is not part of this model.
- tools/build-helpers/src/appendFile.ts, tools/build-helpers/src/resetFile.ts, tools/build-helpers/src/getCurrentDirPath.ts and tools/build-helpers/src/asyncMap.ts are thin wrappers over `fs`, `url`, `path` and `Promise.all`, and are not part of this model.
- Icon metadata aggregation (style sets per icon, multi-colour flags, the metadata index file) has no code among the modelled files and is not part of this model.
