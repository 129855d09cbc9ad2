# Universal documentation compiler: the crawl, in Dafny

`sync-docs-universal.mjs` walks a repository and compiles its readable files
into one text file. This project models the core of that script:

- `crawlDir`, the recursive walk. It prunes excluded directories. It sorts
  every file by its lower-cased extension: skip list first, then include list,
  then everything else. It feeds included files to the extractor and keeps the
  results that are not blank. It updates four pieces of module-level state:
  the `processed` and `skipped` counters, the `logEntries` array and the
  `output` array.
- The extension lookup `path.extname(...).toLowerCase()`, with Node's rules
  for dot-files and `..`.
- The dispatch of `extractReadableContent` on that extension: `.html`/`.htm`,
  `.yaml`/`.yml`, `.json`, and everything else, with the parse-failure
  fallbacks.
- `resolveSourceDirectory`, over an abstract "is an existing directory" test.

## Layout

| file | module | contents |
|---|---|---|
| `options.dfy` | `Options` | `Option` |
| `js_string.dfy` | `JsString` | `trim`, ASCII `toLowerCase`, `/`-joined relative paths |
| `paths.dfy` | `Paths` | `path.extname` |
| `extract.dfy` | `Extract` | `extractReadableContent`, with the HTML, YAML and JSON libraries as parameters |
| `source.dfy` | `Source` | `resolveSourceDirectory` |
| `crawl.dfy` | `Crawl` | the directory tree, the specification of the walk, the `Compiler` class, and the lemmas about the walk |

The walk is specified in two layers:

- `Visited` lists the files the walk reaches, in the order it reaches them.
  Entries are taken in listing order, and a subdirectory is walked where it is
  listed. Excluded directories are not entered.
- `RecordAll` folds the per-file step `Record` over that list.

The class `Crawl.Compiler` holds the four pieces of module-level state as
fields:

- `CrawlDir` is `crawlDir`: a `for` loop over the entries that recurses into
  subdirectories. It is proved to end in exactly the state `RecordAll`
  predicts.
- `CrawlFile` is the loop body for an entry that is not a directory.
- `CrawlIncluded` is the branch of that body for a file on the include list.
  It is a method of its own only to keep each proof small.

The listing of a directory is data. It is a `seq<Entry>`, where an entry is
`File(name, content)` or `Dir(name, children)`. The content of a file is
`None` when `readFileSync` throws. `Crawl.SafeRead` is `safeRead`
(`sync-docs-universal.mjs:124-130`): it turns that `None` into `""`.

The HTML, YAML and JSON libraries are the three fields of `Extract.Codecs`.
Each is an arbitrary function of the content. `None` stands for "threw", or,
for the DOM, for "has no body". The YAML field can also yield `Undefined`:
`yaml.load` of an empty document is `undefined`, and `JSON.stringify` of
`undefined` is `undefined` rather than a string. That is why the walk tests
`typeof cleaned === "string"`, and why `Extracted` has two cases.

## Model

| member | source | states |
|---|---|---|
| JsString.TrimStartSpec | sync-docs-universal.mjs:190 | the leading-trim result is a suffix that is empty or starts with a visible character, and everything dropped is white space |
| JsString.TrimEndSpec | sync-docs-universal.mjs:190 | the trailing-trim result is a prefix that is empty or ends with a visible character, and everything dropped is white space |
| JsString.TrimSpec | sync-docs-universal.mjs:190 | `s.trim().length > 0` holds exactly when `s` has a character outside the ECMAScript white-space and line-terminator set; the result is a slice of `s` with no white space at either end |
| JsString.TrimIdempotent | sync-docs-universal.mjs:143 | trimming an already trimmed string changes nothing |
| JsString.LowerChar | sync-docs-universal.mjs:178 | an upper-case ASCII letter becomes the letter 32 code points above it, its lower-case partner; every other character is kept; the result is never upper-case |
| JsString.Lower | sync-docs-universal.mjs:178 | `toLowerCase` keeps the length; each `A`-`Z` becomes its lower-case partner and every other character stays as it is |
| JsString.LowerAppend | sync-docs-universal.mjs:133 | lower-casing commutes with concatenation |
| JsString.LowerSlice | sync-docs-universal.mjs:133 | lower-casing commutes with taking a slice |
| JsString.RepeatSpec | sync-docs-universal.mjs:192 | `Repeat(c, n)` consists of `n` copies of `c` only |
| Paths.LastIndexOfSpec | sync-docs-universal.mjs:178 | the index found holds the character, and no later position does |
| Paths.BaseNameSpec | sync-docs-universal.mjs:178 | the base name is a suffix of the path without `/`, and it is the whole path or preceded by `/` |
| Paths.ExtOfBaseSpec | sync-docs-universal.mjs:178 | the extension is empty exactly for a name without `.`, for a dot-file whose only `.` is in front, and for `..`; otherwise it is a proper suffix that starts at the last `.` and holds no other `.` |
| Paths.ExtNameOfJoin | sync-docs-universal.mjs:171 | the extension of `dir/name` is the extension of `name` |
| Paths.LastIndexOfLower | sync-docs-universal.mjs:133 | lower-casing does not move the last `.` or `/` |
| Paths.BaseNameLower | sync-docs-universal.mjs:133 | the base name of the lower-cased path is the lower-cased base name |
| Paths.ExtOfBaseLower | sync-docs-universal.mjs:133 | the extension of the lower-cased name is the lower-cased extension |
| Paths.ExtNameLower | sync-docs-universal.mjs:133 | `extname(p.toLowerCase()) == extname(p).toLowerCase()` for every path |
| Extract.FormatOf | sync-docs-universal.mjs:135-155 | markup exactly for `.html`/`.htm`, YAML exactly for `.yaml`/`.yml`, JSON exactly for `.json` |
| Extract.ExtractReadableContent | sync-docs-universal.mjs:132-165 | markup yields the trimmed body text, or `""` without a body; YAML and JSON that parse yield their re-serialisation, and a parse failure returns the original content; other extensions return the content unchanged; only YAML can return something that is not a string |
| Extract.ExtractCaseInsensitive | sync-docs-universal.mjs:133 | two paths equal up to case are extracted alike |
| Source.ResolveSourceDirectory | sync-docs-universal.mjs:106-122 | empty input gives the default with no warning; input that resolves to an existing directory gives that directory; any other input gives the default with the warning; the result is the default or an existing directory |
| Crawl.ClassifySpec | sync-docs-universal.mjs:178-204 | a file is `Skipped` exactly when its extension is on the skip list; it is `SkippedExt` exactly when the extension is on neither list; an included file is processed exactly when the extracted text is a string with a visible character, and that text is then kept |
| Crawl.RecordSpec | sync-docs-universal.mjs:180-204 | one file adds exactly one log line; it moves `processed` by one when processed and `skipped` by one otherwise; `output` gains that file's block exactly when it is processed; earlier log lines and blocks are kept |
| Crawl.RuleSpec | sync-docs-universal.mjs:192 | the delimiter line is 44 `=` characters |
| Crawl.BlockInjective | sync-docs-universal.mjs:191-193 | a block determines its path and its text, for paths without a line break |
| Crawl.SkipStep | sync-docs-universal.mjs:180-184 | a skip-listed file adds 1 to `skipped` and logs `⏭ Skipped: <relPath>` |
| Crawl.ProcessedStep | sync-docs-universal.mjs:190-196 | an included file with non-blank text adds its block to `output`, adds 1 to `processed` and logs `✅ Processed: <relPath>` |
| Crawl.SkippedEmptyStep | sync-docs-universal.mjs:197-200 | an included file whose text is blank or not a string adds 1 to `skipped` and logs `⏭ Skipped (empty or invalid): <relPath>` |
| Crawl.ExtStep | sync-docs-universal.mjs:201-204 | a file on neither list adds 1 to `skipped` and logs `⏭ Skipped (ext): <relPath>` |
| Crawl.Compiler.constructor | sync-docs-universal.mjs:84-87 | the state starts with zero counters and an empty log and output |
| Crawl.Compiler.CrawlDir | sync-docs-universal.mjs:167-207 | the new state is the old one with every reached file recorded, in traversal order |
| Crawl.Compiler.CrawlFile | sync-docs-universal.mjs:177-205 | the new state is the old one with this file recorded by its classification |
| Crawl.Compiler.CrawlIncluded | sync-docs-universal.mjs:186-200 | the same, for a file on the include list |
| Crawl.CompileTree | sync-docs-universal.mjs:218-222 | from a fresh state, `processed + skipped` equals the number of log lines and the number of files outside excluded directories, and the number of output blocks equals `processed` |
| Crawl.RecordAllAppend | sync-docs-universal.mjs:176 | handling the files of a subdirectory continues from the state the earlier entries left |
| Crawl.RecordAllCounts | sync-docs-universal.mjs:178-204 | `processed` rises by the number of processed files, and `processed + skipped` by the number of files |
| Crawl.LogOfSpec | sync-docs-universal.mjs:180-204 | there is one log line per visited file, the `j`-th being the `j`-th file's line |
| Crawl.RecordAllLog | sync-docs-universal.mjs:180-204 | the log gains the files' lines, in traversal order, after the old ones |
| Crawl.RecordAllOutput | sync-docs-universal.mjs:191-193 | `output` gains the blocks of the processed files, one each, in traversal order, after the old ones |
| Crawl.VisitedLength | sync-docs-universal.mjs:170-177 | the walk reaches one file per regular file outside excluded directories |
| Crawl.VisitedAdmitted | sync-docs-universal.mjs:174-176 | every file reached lies below the starting directory on a path that names no excluded directory, at any depth |
| Crawl.PruneInert | sync-docs-universal.mjs:174-176 | throwing away the contents of every excluded directory does not change the files reached |
| Crawl.ExcludedSubtreesInert | sync-docs-universal.mjs:174-176 | two trees that differ only beneath excluded directories leave counters, log and output in the same state |
| Crawl.SkipListFirst | sync-docs-universal.mjs:180-184 | a skip-listed file is skipped even when its extension is also included, whatever its content and whatever the extractor would do |
| Crawl.DispatchExtension | sync-docs-universal.mjs:178-188 | the extractor dispatches on the same extension the file was classified by |
| Crawl.ClassifyFromExtAndText | sync-docs-universal.mjs:178-190 | a file's outcome depends only on its lower-cased extension and its extracted text |
| Crawl.ClassifyCaseInsensitive | sync-docs-universal.mjs:178 | two files whose names agree once lower-cased, with the same place and content, are treated alike |
| Crawl.UpperCaseExt | sync-docs-universal.mjs:178 | the extension of `README.MD`, lower-cased, is `.md` |
| Crawl.UpperCaseNameIncluded | sync-docs-universal.mjs:178-186 | under the configured lists a file named `README.MD` is on the include list and is neither skipped nor skipped for its extension |

## Left out

- JSDOM, js-yaml, `JSON.parse` and `JSON.stringify` are not interpreted. They are the arbitrary functions in `Extract.Codecs`. The model does not capture what they strip, parse or print. It also does not capture the JSDOM constructor throwing.
- File system calls are not modelled: the listing and the file contents are data. A `readdirSync` that throws is not modelled, and neither are file types other than directory and "not a directory".
- `path.join` and `path.relative` are modelled as joining names with `/` below the walk root. Normalisation of `.` and `..` in the root, and a root given with a trailing `/`, are not modelled.
- `Paths.ExtName` works on a path without a trailing `/`. The walk only ever passes entry names and joined paths, which have none.
- `JsString.Lower` lower-cases ASCII letters only. Other letters are left unchanged, unlike `toLowerCase`.
- The `readline` prompt, `main`'s orchestration, the writes of the output and log files, the zip archive, the timing and all console output are left out. They are interactive, I/O, a foreign library or wall-clock time. `CompileTree` stands for the part of `main` that starts the crawl.
- `Source.ResolveSourceDirectory` reports its warning as the `warned` flag. The code only prints it with `console.warn` and never adds it to `logEntries`; the model follows the code.
- `output` is a field of `Compiler` rather than an array the caller passes in. `main` passes one fresh array to the one top-level call, so nothing else can see the difference.
- `init.js` is not part of this model. It is a bootstrap that reads configuration and imports the script.
- Remote mirroring of a URL is not modelled: the script has no code for it. The URL the user enters only selects a local directory.
