/** `crawlDir`: the recursive walk that classifies every file by its
    lower-cased extension, feeds the included ones to the extractor, and
    accumulates two counters, the log lines and the output blocks.

    The walk is specified in two layers. `Visited` lists the files the walk
    reaches, in the order it reaches them; `RecordAll` folds the per-file step
    `Record` over that list. The `Compiler` class holds the module-level state
    of the source and its `CrawlDir` method is proved to end in exactly the
    state `RecordAll` predicts. */
module Crawl {
  import opened Options
  import opened JsString
  import opened Paths
  import opened Extract

  /** The three lists the walk consults. */
  datatype Policy = Policy(includeExts: seq<string>, skipExts: seq<string>, excludeDirs: seq<string>)

  /** The lists the script is configured with. */
  const DefaultPolicy := Policy(
    [".md", ".mdx", ".html", ".htm", ".txt", ".js", ".jsx", ".ts", ".tsx", ".json", ".yaml", ".yml"],
    [".png", ".jpg", ".jpeg", ".gif", ".svg", ".webp", ".mp4", ".mov", ".avi", ".zip", ".pdf",
     ".woff", ".woff2", ".ttf", ".eot", ".ico"],
    ["node_modules", ".git", "dist", "build", ".next", ".astro", ".cache"])

  /** A directory entry as `readdirSync(dir, { withFileTypes: true })` lists it.
      `File` is every entry that is not a directory; its content is what
      `readFileSync(_, "utf8")` returns, `None` when the read throws. */
  datatype Entry = File(name: string, content: Option<string>) | Dir(name: string, children: seq<Entry>)

  /** `safeRead`: a failed read reads as the empty string. */
  function SafeRead(content: Option<string>): string
  {
    match content
    case Some(s) => s
    case None => ""
  }

  /** A regular file the walk reaches: the walk root, the names of the
      directories from the root down to it, and its own entry. */
  datatype Visit = Visit(root: string, dirs: seq<string>, name: string, content: Option<string>)
  {
    /** `path.relative(rootDir, fullPath)`. */
    function RelPath(): string { JoinPath(dirs + [name]) }

    /** `path.join(dir, entry.name)`. */
    function FullPath(): string { root + "/" + RelPath() }

    /** The directory `dir` that `crawlDir` was listing. */
    function DirPath(): string { if dirs == [] then root else root + "/" + JoinPath(dirs) }
  }

  /** The files the walk reaches below the directory `dirs` of `root`, whose
      entries are `es`, in the order it reaches them: entries in listing
      order, each subdirectory walked where it is listed, excluded
      directories not entered. */
  function Visited(p: Policy, root: string, dirs: seq<string>, es: seq<Entry>): seq<Visit>
    decreases es
  {
    if es == [] then []
    else Visited(p, root, dirs, es[..|es| - 1]) + VisitedEntry(p, root, dirs, es[|es| - 1])
  }

  function VisitedEntry(p: Policy, root: string, dirs: seq<string>, e: Entry): seq<Visit>
    decreases e
  {
    match e
    case File(name, content) => [Visit(root, dirs, name, content)]
    case Dir(name, children) =>
      if name in p.excludeDirs then [] else Visited(p, root, dirs + [name], children)
  }

  /** The number of regular files in a tree outside excluded directories,
      counted entry by entry from the front. */
  function FileCount(p: Policy, es: seq<Entry>): nat
    decreases es
  {
    if es == [] then 0 else EntryFileCount(p, es[0]) + FileCount(p, es[1..])
  }

  function EntryFileCount(p: Policy, e: Entry): nat
    decreases e
  {
    match e
    case File(_, _) => 1
    case Dir(name, children) => if name in p.excludeDirs then 0 else FileCount(p, children)
  }

  /** What the walk decided about one file. */
  datatype Outcome = Skipped | SkippedExt | SkippedEmpty | Processed(cleaned: string)

  /** `path.extname(name).toLowerCase()`. */
  function ExtOf(name: string): string
  {
    Lower(ExtName(name))
  }

  /** What `extractReadableContent` makes of a visited file. */
  function CleanedOf(codecs: Codecs, v: Visit): Extracted
  {
    ExtractReadableContent(codecs, v.FullPath(), SafeRead(v.content))
  }

  /** The decision for one file: the skip list first, then the include list,
      then the emptiness test on the extracted text. */
  function Classify(codecs: Codecs, p: Policy, v: Visit): Outcome
  {
    var ext := ExtOf(v.name);
    if ext in p.skipExts then Skipped
    else if ext in p.includeExts then
      var cleaned := CleanedOf(codecs, v);
      if cleaned.Text? && |Trim(cleaned.text)| > 0 then Processed(cleaned.text) else SkippedEmpty
    else SkippedExt
  }

  /** The skip list wins over the include list; a file on neither is skipped
      for its extension; an included file is processed exactly when its
      extracted text has a visible character, and then that text is kept. */
  lemma ClassifySpec(codecs: Codecs, p: Policy, v: Visit)
    ensures Classify(codecs, p, v) == Skipped <==> ExtOf(v.name) in p.skipExts
    ensures Classify(codecs, p, v) == SkippedExt <==> ExtOf(v.name) !in p.skipExts && ExtOf(v.name) !in p.includeExts
    ensures ExtOf(v.name) !in p.skipExts && ExtOf(v.name) in p.includeExts ==>
      (Classify(codecs, p, v).Processed? <==> CleanedOf(codecs, v).Text? && HasVisibleChar(CleanedOf(codecs, v).text))
    ensures Classify(codecs, p, v).Processed? ==> CleanedOf(codecs, v) == Text(Classify(codecs, p, v).cleaned) && HasVisibleChar(Classify(codecs, p, v).cleaned)
  {
    var c := CleanedOf(codecs, v);
    if c.Text? {
      TrimSpec(c.text);
    }
  }

  /** The delimiter line of an output block: 44 `=`. */
  const Rule: string := Repeat('=', 44)

  /** The output block of a processed file. */
  function Block(relPath: string, cleaned: string): string
  {
    "\n" + Rule + "\nFILE: " + relPath + "\n" + Rule + "\n" + cleaned + "\n"
  }

  /** The log line of one file. */
  function LogLine(relPath: string, o: Outcome): string
  {
    match o
    case Skipped => "\U{23ED} Skipped: " + relPath
    case SkippedExt => "\U{23ED} Skipped (ext): " + relPath
    case SkippedEmpty => "\U{23ED} Skipped (empty or invalid): " + relPath
    case Processed(_) => "\U{2705} Processed: " + relPath
  }

  /** The state `crawlDir` updates: the counters `processed` and `skipped`,
      the `logEntries` array and the `output` array. */
  datatype Tallies = Tallies(processed: nat, skipped: nat, logEntries: seq<string>, output: seq<string>)

  const Zero := Tallies(0, 0, [], [])

  /** One file's effect on the state: one log line, one of the two counters up
      by one, and an output block exactly when the file was processed. */
  function Record(t: Tallies, relPath: string, o: Outcome): Tallies
  {
    if o.Processed? then
      Tallies(t.processed + 1, t.skipped, t.logEntries + [LogLine(relPath, o)], t.output + [Block(relPath, o.cleaned)])
    else
      Tallies(t.processed, t.skipped + 1, t.logEntries + [LogLine(relPath, o)], t.output)
  }

  /** Each file adds exactly one log line and moves exactly one of the two
      counters by one; `output` gains one block, that of the file, when the
      file is processed and nothing otherwise; what was there before is kept. */
  lemma RecordSpec(t: Tallies, relPath: string, o: Outcome)
    ensures var r := Record(t, relPath, o);
      && r.logEntries == t.logEntries + [LogLine(relPath, o)]
      && (o.Processed? <==> r.processed == t.processed + 1 && r.skipped == t.skipped)
      && (!o.Processed? <==> r.processed == t.processed && r.skipped == t.skipped + 1)
      && |r.output| == |t.output| + (if o.Processed? then 1 else 0)
      && r.output[..|t.output|] == t.output
      && (o.Processed? ==> r.output[|t.output|] == Block(relPath, o.cleaned))
  {
    var r := Record(t, relPath, o);
    if o.Processed? {
      assert r.output == t.output + [Block(relPath, o.cleaned)];
    }
  }

  /** The rule line is 44 `=` characters. */
  lemma RuleSpec()
    ensures |Rule| == 44 && forall i :: 0 <= i < 44 ==> Rule[i] == '='
  {
    RepeatSpec('=', 44);
  }

  /** Steps of `Compiler.CrawlFile`: the state a file's record leads to, given
      the branch the crawl takes for it. */
  lemma SkipStep(codecs: Codecs, p: Policy, v: Visit, t: Tallies)
    requires ExtOf(v.name) in p.skipExts
    ensures Record(t, v.RelPath(), Classify(codecs, p, v))
         == Tallies(t.processed, t.skipped + 1, t.logEntries + ["\U{23ED} Skipped: " + v.RelPath()], t.output)
  {
  }

  lemma ProcessedStep(codecs: Codecs, p: Policy, v: Visit, t: Tallies, cleaned: string)
    requires ExtOf(v.name) !in p.skipExts && ExtOf(v.name) in p.includeExts
    requires CleanedOf(codecs, v) == Text(cleaned) && |Trim(cleaned)| > 0
    ensures Record(t, v.RelPath(), Classify(codecs, p, v))
         == Tallies(t.processed + 1, t.skipped, t.logEntries + ["\U{2705} Processed: " + v.RelPath()],
                    t.output + [Block(v.RelPath(), cleaned)])
  {
    assert Classify(codecs, p, v) == Processed(cleaned);
    RecordProcessed(t, v.RelPath(), cleaned);
  }

  lemma RecordProcessed(t: Tallies, relPath: string, cleaned: string)
    ensures Record(t, relPath, Processed(cleaned))
         == Tallies(t.processed + 1, t.skipped, t.logEntries + ["\U{2705} Processed: " + relPath],
                    t.output + [Block(relPath, cleaned)])
  {
  }

  lemma SkippedEmptyStep(codecs: Codecs, p: Policy, v: Visit, t: Tallies, cleaned: Extracted)
    requires ExtOf(v.name) !in p.skipExts && ExtOf(v.name) in p.includeExts
    requires CleanedOf(codecs, v) == cleaned && !(cleaned.Text? && |Trim(cleaned.text)| > 0)
    ensures Record(t, v.RelPath(), Classify(codecs, p, v))
         == Tallies(t.processed, t.skipped + 1, t.logEntries + ["\U{23ED} Skipped (empty or invalid): " + v.RelPath()], t.output)
  {
    assert Classify(codecs, p, v) == SkippedEmpty;
    RecordSkipped(t, v.RelPath(), SkippedEmpty);
  }

  lemma RecordSkipped(t: Tallies, relPath: string, o: Outcome)
    requires !o.Processed?
    ensures Record(t, relPath, o) == Tallies(t.processed, t.skipped + 1, t.logEntries + [LogLine(relPath, o)], t.output)
  {
  }

  lemma ExtStep(codecs: Codecs, p: Policy, v: Visit, t: Tallies)
    requires ExtOf(v.name) !in p.skipExts && ExtOf(v.name) !in p.includeExts
    ensures Record(t, v.RelPath(), Classify(codecs, p, v))
         == Tallies(t.processed, t.skipped + 1, t.logEntries + ["\U{23ED} Skipped (ext): " + v.RelPath()], t.output)
  {
  }

  /** The state after the files `vs` have been handled, in order, from `t`. */
  function RecordAll(codecs: Codecs, p: Policy, t: Tallies, vs: seq<Visit>): Tallies
    decreases |vs|
  {
    if vs == [] then t
    else
      var v := vs[|vs| - 1];
      Record(RecordAll(codecs, p, t, vs[..|vs| - 1]), v.RelPath(), Classify(codecs, p, v))
  }

  /** The same effect described file by file rather than step by step. */
  function ProcessedCount(codecs: Codecs, p: Policy, vs: seq<Visit>): nat
    decreases |vs|
  {
    if vs == [] then 0
    else ProcessedCount(codecs, p, vs[..|vs| - 1]) + (if Classify(codecs, p, vs[|vs| - 1]).Processed? then 1 else 0)
  }

  /** The lines `line` makes of the files `vs`, one per file, in order. */
  function Lines(line: Visit -> string, vs: seq<Visit>): seq<string>
    decreases |vs|
  {
    if vs == [] then [] else Lines(line, vs[..|vs| - 1]) + [line(vs[|vs| - 1])]
  }

  function LogOf(codecs: Codecs, p: Policy, vs: seq<Visit>): seq<string>
  {
    Lines((v: Visit) => LogLine(v.RelPath(), Classify(codecs, p, v)), vs)
  }

  function BlocksOf(codecs: Codecs, p: Policy, vs: seq<Visit>): seq<string>
    decreases |vs|
  {
    if vs == [] then []
    else
      var v := vs[|vs| - 1];
      var o := Classify(codecs, p, v);
      BlocksOf(codecs, p, vs[..|vs| - 1]) + (if o.Processed? then [Block(v.RelPath(), o.cleaned)] else [])
  }

  // ---------------------------------------------------------------------------
  // The imperative walk

  /** The module-level state of the script: `processed`, `skipped`,
      `logEntries`, and the `output` array `main` hands to `crawlDir`. */
  class Compiler {
    var processed: nat
    var skipped: nat
    var logEntries: seq<string>
    var output: seq<string>

    function State(): Tallies
      reads this
    {
      Tallies(processed, skipped, logEntries, output)
    }

    /** The state at module load: zero counters, empty arrays. */
    constructor ()
      ensures State() == Zero
    {
      processed, skipped, logEntries, output := 0, 0, [], [];
    }

    /** `crawlDir(dir, output, rootDir)`, where `dir` is the directory `dirs`
        below `rootDir == root` and `entries` is what `readdirSync(dir)` lists.
        The new state is the old one with every reached file recorded, in the
        order the walk reaches them. */
    method CrawlDir(codecs: Codecs, p: Policy, root: string, dirs: seq<string>, entries: seq<Entry>)
      modifies this
      ensures State() == RecordAll(codecs, p, old(State()), Visited(p, root, dirs, entries))
      decreases entries
    {
      for i := 0 to |entries|
        invariant State() == RecordAll(codecs, p, old(State()), Visited(p, root, dirs, entries[..i]))
      {
        var entry := entries[i];
        assert entries[..i + 1] == entries[..i] + [entry];
        VisitedSnoc(p, root, dirs, entries[..i], entry);
        ghost var done := Visited(p, root, dirs, entries[..i]);

        if entry.Dir? {
          if entry.name in p.excludeDirs {
            assert done + [] == done;
            continue;
          }
          CrawlDir(codecs, p, root, dirs + [entry.name], entry.children);
          RecordAllAppend(codecs, p, old(State()), done, Visited(p, root, dirs + [entry.name], entry.children));
        } else {
          ghost var v := Visit(root, dirs, entry.name, entry.content);
          RecordAllSnoc(codecs, p, old(State()), done, v);
          CrawlFile(codecs, p, root, dirs, entry.name, entry.content);
        }
      }
      assert entries[..|entries|] == entries;
    }
    /** One pass of `crawlDir`'s loop body for an entry that is not a
        directory: skip list, include list, extraction, emptiness test. */
    method CrawlFile(codecs: Codecs, p: Policy, root: string, dirs: seq<string>, name: string, content: Option<string>)
      modifies this
      ensures var v := Visit(root, dirs, name, content);
        State() == Record(old(State()), v.RelPath(), Classify(codecs, p, v))
    {
      ghost var v := Visit(root, dirs, name, content);
      var relPath := JoinPath(dirs + [name]);
      var ext := Lower(ExtName(name));

      if ext in p.skipExts {
        SkipStep(codecs, p, v, State());
        skipped := skipped + 1;
        logEntries := logEntries + ["\U{23ED} Skipped: " + relPath];
        return;
      }

      if ext in p.includeExts {
        CrawlIncluded(codecs, p, root, dirs, name, content, relPath);
      } else {
        ExtStep(codecs, p, v, State());
        skipped := skipped + 1;
        logEntries := logEntries + ["\U{23ED} Skipped (ext): " + relPath];
      }
    }

    /** The branch of `CrawlFile` for a file whose extension is on the
        include list: read it, extract its text, and keep it when the text
        is not blank. */
    method CrawlIncluded(codecs: Codecs, p: Policy, root: string, dirs: seq<string>, name: string,
                         content: Option<string>, relPath: string)
      modifies this
      requires ExtOf(name) !in p.skipExts && ExtOf(name) in p.includeExts
      requires relPath == JoinPath(dirs + [name])
      ensures State() == Record(old(State()), relPath, Classify(codecs, p, Visit(root, dirs, name, content)))
    {
      ghost var v := Visit(root, dirs, name, content);
      var text := SafeRead(content);
      var cleaned := ExtractReadableContent(codecs, root + "/" + relPath, text);

      if cleaned.Text? && |Trim(cleaned.text)| > 0 {
        ProcessedStep(codecs, p, v, State(), cleaned.text);
        output := output + [Block(relPath, cleaned.text)];
        processed := processed + 1;
        logEntries := logEntries + ["\U{2705} Processed: " + relPath];
      } else {
        SkippedEmptyStep(codecs, p, v, State(), cleaned);
        skipped := skipped + 1;
        logEntries := logEntries + ["\U{23ED} Skipped (empty or invalid): " + relPath];
      }
    }
  }

  /** `main`'s use of the walk: fresh state, one crawl from the root. The
      counters then add up to the number of log lines and to the number of
      files outside excluded directories, and there is one output block per
      processed file. */
  method CompileTree(codecs: Codecs, p: Policy, root: string, entries: seq<Entry>) returns (t: Tallies)
    ensures t == RecordAll(codecs, p, Zero, Visited(p, root, [], entries))
    ensures t.processed + t.skipped == |t.logEntries| == FileCount(p, entries)
    ensures |t.output| == t.processed
  {
    var c := new Compiler();
    c.CrawlDir(codecs, p, root, [], entries);
    t := c.State();
    RecordAllCounts(codecs, p, Zero, Visited(p, root, [], entries));
    RecordAllLog(codecs, p, Zero, Visited(p, root, [], entries));
    LogOfSpec(codecs, p, Visited(p, root, [], entries));
    RecordAllOutput(codecs, p, Zero, Visited(p, root, [], entries));
    VisitedLength(p, root, [], entries);
  }

  // ---------------------------------------------------------------------------
  // Lemmas about the walk

  lemma VisitedSnoc(p: Policy, root: string, dirs: seq<string>, es: seq<Entry>, e: Entry)
    ensures Visited(p, root, dirs, es + [e]) == Visited(p, root, dirs, es) + VisitedEntry(p, root, dirs, e)
  {
    assert (es + [e])[..|es|] == es;
  }

  lemma RecordAllSnoc(codecs: Codecs, p: Policy, t: Tallies, vs: seq<Visit>, v: Visit)
    ensures RecordAll(codecs, p, t, vs + [v]) == Record(RecordAll(codecs, p, t, vs), v.RelPath(), Classify(codecs, p, v))
  {
    assert (vs + [v])[..|vs|] == vs;
  }

  /** Handling `a` and then `b` is handling `a + b`. */
  lemma {:induction false} RecordAllAppend(codecs: Codecs, p: Policy, t: Tallies, a: seq<Visit>, b: seq<Visit>)
    ensures RecordAll(codecs, p, t, a + b) == RecordAll(codecs, p, RecordAll(codecs, p, t, a), b)
    decreases |b|
  {
    if b == [] {
      assert a + b == a;
    } else {
      var b' := b[..|b| - 1];
      assert (a + b)[..|a + b| - 1] == a + b';
      RecordAllAppend(codecs, p, t, a, b');
    }
  }

  /** The step-by-step fold agrees with the file-by-file description: one
      counter moves per file, and `processed` moves once per processed file. */
  lemma {:induction false} RecordAllCounts(codecs: Codecs, p: Policy, t: Tallies, vs: seq<Visit>)
    ensures RecordAll(codecs, p, t, vs).processed == t.processed + ProcessedCount(codecs, p, vs)
    ensures RecordAll(codecs, p, t, vs).processed + RecordAll(codecs, p, t, vs).skipped
         == t.processed + t.skipped + |vs|
    decreases |vs|
  {
    if vs != [] {
      RecordAllCounts(codecs, p, t, vs[..|vs| - 1]);
    }
  }

  /** One log line per visited file, in the order the files were visited. */
  lemma LogOfSpec(codecs: Codecs, p: Policy, vs: seq<Visit>)
    ensures |LogOf(codecs, p, vs)| == |vs|
    ensures forall j :: 0 <= j < |vs| ==> LogOf(codecs, p, vs)[j] == LogLine(vs[j].RelPath(), Classify(codecs, p, vs[j]))
  {
    var line := (v: Visit) => LogLine(v.RelPath(), Classify(codecs, p, v));
    LinesLength(line, vs);
    forall j | 0 <= j < |vs| ensures LogOf(codecs, p, vs)[j] == LogLine(vs[j].RelPath(), Classify(codecs, p, vs[j])) {
      LinesAt(line, vs, j);
    }
  }

  lemma {:induction false} LinesLength(line: Visit -> string, vs: seq<Visit>)
    ensures |Lines(line, vs)| == |vs|
    decreases |vs|
  {
    if vs != [] {
      LinesLength(line, vs[..|vs| - 1]);
    }
  }

  lemma {:induction false} LinesAt(line: Visit -> string, vs: seq<Visit>, j: int)
    requires 0 <= j < |vs|
    ensures |Lines(line, vs)| == |vs| && Lines(line, vs)[j] == line(vs[j])
    decreases |vs|
  {
    var vs' := vs[..|vs| - 1];
    LinesLength(line, vs');
    if j < |vs'| {
      LinesAt(line, vs', j);
      assert vs'[j] == vs[j];
    }
  }

  /** Every file adds its own log line, in traversal order, and earlier log
      lines are kept as they were. */
  lemma {:induction false} RecordAllLog(codecs: Codecs, p: Policy, t: Tallies, vs: seq<Visit>)
    ensures RecordAll(codecs, p, t, vs).logEntries == t.logEntries + LogOf(codecs, p, vs)
    decreases |vs|
  {
    if vs != [] {
      var vs' := vs[..|vs| - 1];
      var v := vs[|vs| - 1];
      RecordAllLog(codecs, p, t, vs');
      var line := LogLine(v.RelPath(), Classify(codecs, p, v));
      assert RecordAll(codecs, p, t, vs).logEntries == RecordAll(codecs, p, t, vs').logEntries + [line];
      ConcatAssoc(t.logEntries, LogOf(codecs, p, vs'), [line]);
    }
  }

  /** The new output blocks are those of the processed files, in traversal
      order, one per processed file; earlier blocks are kept as they were. */
  lemma {:induction false} RecordAllOutput(codecs: Codecs, p: Policy, t: Tallies, vs: seq<Visit>)
    ensures RecordAll(codecs, p, t, vs).output == t.output + BlocksOf(codecs, p, vs)
    ensures |BlocksOf(codecs, p, vs)| == ProcessedCount(codecs, p, vs)
    decreases |vs|
  {
    if vs != [] {
      var vs' := vs[..|vs| - 1];
      var v := vs[|vs| - 1];
      var o := Classify(codecs, p, v);
      RecordAllOutput(codecs, p, t, vs');
      var r' := RecordAll(codecs, p, t, vs');
      var extra := if o.Processed? then [Block(v.RelPath(), o.cleaned)] else [];
      assert RecordAll(codecs, p, t, vs).output == r'.output + extra;
      assert BlocksOf(codecs, p, vs) == BlocksOf(codecs, p, vs') + extra;
      var A, B := t.output, BlocksOf(codecs, p, vs');
      ConcatAssoc(A, B, extra);
    }
  }

  lemma ConcatAssoc<T>(a: seq<T>, b: seq<T>, c: seq<T>)
    ensures (a + b) + c == a + (b + c)
  {
  }

  lemma {:induction false} FileCountSnoc(p: Policy, es: seq<Entry>, e: Entry)
    ensures FileCount(p, es + [e]) == FileCount(p, es) + EntryFileCount(p, e)
  {
    if es != [] {
      assert (es + [e])[1..] == es[1..] + [e];
      FileCountSnoc(p, es[1..], e);
    } else {
      assert [e][1..] == [];
    }
  }

  /** One visit per regular file outside excluded directories. */
  lemma {:induction false} VisitedLength(p: Policy, root: string, dirs: seq<string>, es: seq<Entry>)
    ensures |Visited(p, root, dirs, es)| == FileCount(p, es)
    decreases es
  {
    if es != [] {
      var es' := es[..|es| - 1];
      var e := es[|es| - 1];
      assert es == es' + [e];
      VisitedLength(p, root, dirs, es');
      VisitedEntryLength(p, root, dirs, e);
      FileCountSnoc(p, es', e);
    }
  }

  lemma {:induction false} VisitedEntryLength(p: Policy, root: string, dirs: seq<string>, e: Entry)
    ensures |VisitedEntry(p, root, dirs, e)| == EntryFileCount(p, e)
    decreases e
  {
    if e.Dir? && e.name !in p.excludeDirs {
      VisitedLength(p, root, dirs + [e.name], e.children);
    }
  }

  /** No directory on the way from `dirs` down to a visited file is excluded. */
  ghost predicate Admitted(p: Policy, root: string, dirs: seq<string>, v: Visit)
  {
    && v.root == root
    && |dirs| <= |v.dirs| && v.dirs[..|dirs|] == dirs
    && forall k :: |dirs| <= k < |v.dirs| ==> v.dirs[k] !in p.excludeDirs
  }

  /** Excluded directories are never entered, at any depth: every file the walk
      reaches lies below the starting directory on a path that names no
      excluded directory. */
  lemma {:induction false} VisitedAdmitted(p: Policy, root: string, dirs: seq<string>, es: seq<Entry>)
    ensures forall j :: 0 <= j < |Visited(p, root, dirs, es)| ==> Admitted(p, root, dirs, Visited(p, root, dirs, es)[j])
    decreases es
  {
    if es != [] {
      var es' := es[..|es| - 1];
      var e := es[|es| - 1];
      VisitedAdmitted(p, root, dirs, es');
      VisitedEntryAdmitted(p, root, dirs, e);
      var a := Visited(p, root, dirs, es');
      var b := VisitedEntry(p, root, dirs, e);
      assert Visited(p, root, dirs, es) == a + b;
      forall j | 0 <= j < |a + b| ensures Admitted(p, root, dirs, (a + b)[j]) {
        if j >= |a| {
          assert (a + b)[j] == b[j - |a|];
        }
      }
    }
  }

  lemma {:induction false} VisitedEntryAdmitted(p: Policy, root: string, dirs: seq<string>, e: Entry)
    ensures forall j :: 0 <= j < |VisitedEntry(p, root, dirs, e)| ==> Admitted(p, root, dirs, VisitedEntry(p, root, dirs, e)[j])
    decreases e
  {
    if e.Dir? && e.name !in p.excludeDirs {
      var d := dirs + [e.name];
      VisitedAdmitted(p, root, d, e.children);
      var vs := Visited(p, root, d, e.children);
      forall j | 0 <= j < |vs| ensures Admitted(p, root, dirs, vs[j]) {
        var v := vs[j];
        assert Admitted(p, root, d, v);
        assert v.dirs[..|dirs|] == v.dirs[..|d|][..|dirs|];
      }
    }
  }

  /** The tree with the contents of every excluded directory, at any depth,
      thrown away. */
  function Prune(p: Policy, es: seq<Entry>): (r: seq<Entry>)
    ensures |r| == |es|
    decreases es
  {
    if es == [] then [] else Prune(p, es[..|es| - 1]) + [PruneEntry(p, es[|es| - 1])]
  }

  function PruneEntry(p: Policy, e: Entry): Entry
    decreases e
  {
    match e
    case File(_, _) => e
    case Dir(name, children) => if name in p.excludeDirs then Dir(name, []) else Dir(name, Prune(p, children))
  }

  lemma {:induction false} PruneInert(p: Policy, root: string, dirs: seq<string>, es: seq<Entry>)
    ensures Visited(p, root, dirs, Prune(p, es)) == Visited(p, root, dirs, es)
    decreases es
  {
    if es != [] {
      var es' := es[..|es| - 1];
      var e := es[|es| - 1];
      var pr := Prune(p, es);
      assert pr[..|pr| - 1] == Prune(p, es');
      assert pr[|pr| - 1] == PruneEntry(p, e);
      PruneInert(p, root, dirs, es');
      PruneEntryInert(p, root, dirs, e);
    }
  }

  lemma {:induction false} PruneEntryInert(p: Policy, root: string, dirs: seq<string>, e: Entry)
    ensures VisitedEntry(p, root, dirs, PruneEntry(p, e)) == VisitedEntry(p, root, dirs, e)
    decreases e
  {
    if e.Dir? && e.name !in p.excludeDirs {
      PruneInert(p, root, dirs + [e.name], e.children);
    }
  }

  /** Whatever lies beneath an excluded directory, at any depth, changes
      nothing: two trees that agree outside excluded directories leave the
      counters, the log and the output in the same state. */
  lemma ExcludedSubtreesInert(codecs: Codecs, p: Policy, t: Tallies, root: string, dirs: seq<string>,
                              es1: seq<Entry>, es2: seq<Entry>)
    requires Prune(p, es1) == Prune(p, es2)
    ensures RecordAll(codecs, p, t, Visited(p, root, dirs, es1)) == RecordAll(codecs, p, t, Visited(p, root, dirs, es2))
  {
    PruneInert(p, root, dirs, es1);
    PruneInert(p, root, dirs, es2);
  }

  /** Under the script's own lists a name such as `README.MD` is matched as
      `.md`, which the include list holds, so the file is not skipped for its
      extension. */
  lemma UpperCaseNameIncluded(codecs: Codecs, v: Visit)
    requires v.name == "README.MD"
    ensures ExtOf(v.name) == ".md" && ExtOf(v.name) in DefaultPolicy.includeExts
    ensures !Classify(codecs, DefaultPolicy, v).Skipped? && !Classify(codecs, DefaultPolicy, v).SkippedExt?
  {
    UpperCaseExt();
    assert ".md" == DefaultPolicy.includeExts[0];
    ClassifySpec(codecs, DefaultPolicy, v);
  }

  lemma UpperCaseExt()
    ensures ExtOf("README.MD") == ".md"
  {
    var n := "README.MD";
    assert LastIndexOf(n, '/') == -1 by { LastIndexOfSpec(n, '/'); }
    assert BaseName(n) == n;
    assert LastIndexOf(n[..8], '.') == LastIndexOf(n[..7], '.') == 6;
    assert ExtName(n) == ".MD";
    assert Lower(".MD") == ".md";
  }

  /** A file on the skip list is skipped whatever the include list says, and
      neither its content nor the extractor is consulted. */
  lemma SkipListFirst(codecs1: Codecs, codecs2: Codecs, p: Policy, v: Visit, content: Option<string>)
    requires ExtOf(v.name) in p.skipExts
    ensures Classify(codecs1, p, v) == Skipped
    ensures Classify(codecs1, p, v) == Classify(codecs2, p, v.(content := content))
  {
  }

  /** The full path of a visited file is the path of its directory, a `/`,
      and its name. */
  lemma FullPathSplit(v: Visit)
    ensures v.FullPath() == v.DirPath() + "/" + v.name
  {
    var d := v.dirs;
    if |d| > 0 {
      assert (d + [v.name])[..|d|] == d;
      assert v.RelPath() == JoinPath(d) + "/" + v.name;
      var x, y, z := v.root + "/", JoinPath(d) + "/", v.name;
      assert x + (y + z) == (x + y) + z;
    }
  }

  /** The extractor dispatches on the extension of the full path, which is that
      of the entry name the file was classified by. */
  lemma DispatchExtension(v: Visit)
    requires '/' !in v.name
    ensures ExtName(v.FullPath()) == ExtName(v.name)
  {
    FullPathSplit(v);
    ExtNameOfJoin(v.DirPath(), v.name);
  }

  /** Classification ignores the case of a file's name: two files whose names
      agree once lower-cased, in the same place and with the same content, are
      treated alike. */
  lemma ClassifyCaseInsensitive(codecs: Codecs, p: Policy, v: Visit, w: Visit)
    requires v.root == w.root && v.dirs == w.dirs && v.content == w.content
    requires Lower(v.name) == Lower(w.name)
    ensures Classify(codecs, p, v) == Classify(codecs, p, w)
  {
    assert ExtOf(v.name) == ExtOf(w.name) by {
      ExtNameLower(v.name);
      ExtNameLower(w.name);
    }
    assert Lower(v.FullPath()) == Lower(w.FullPath()) by {
      FullPathSplit(v);
      FullPathSplit(w);
      var pre := v.DirPath() + "/";
      assert v.FullPath() == pre + v.name;
      assert w.FullPath() == pre + w.name;
      LowerAppend(pre, v.name);
      LowerAppend(pre, w.name);
    }
    assert CleanedOf(codecs, v) == CleanedOf(codecs, w) by {
      ExtractCaseInsensitive(codecs, v.FullPath(), w.FullPath(), SafeRead(v.content));
    }
    ClassifyFromExtAndText(codecs, p, v, w);
  }

  /** A file's outcome depends only on its lower-cased extension and on what
      the extractor makes of it. */
  lemma ClassifyFromExtAndText(codecs: Codecs, p: Policy, v: Visit, w: Visit)
    requires ExtOf(v.name) == ExtOf(w.name)
    requires CleanedOf(codecs, v) == CleanedOf(codecs, w)
    ensures Classify(codecs, p, v) == Classify(codecs, p, w)
  {
  }

  /** The frame of an output block identifies the file and its text: a block
      can come from one path and one text only (paths hold no line break). */
  lemma BlockInjective(r1: string, c1: string, r2: string, c2: string)
    requires '\n' !in r1 && '\n' !in r2
    requires Block(r1, c1) == Block(r2, c2)
    ensures r1 == r2 && c1 == c2
  {
    var head := "\n" + Rule + "\nFILE: ";
    BlockShape(head, r1, Rule, c1);
    BlockShape(head, r2, Rule, c2);
    var x1 := r1 + ("\n" + (Rule + ("\n" + (c1 + "\n"))));
    var x2 := r2 + ("\n" + (Rule + ("\n" + (c2 + "\n"))));
    CancelPrefix(head, x1, x2);
    SplitAtNewline(r1, Rule + ("\n" + (c1 + "\n")), r2, Rule + ("\n" + (c2 + "\n")));
    CancelPrefix(Rule, "\n" + (c1 + "\n"), "\n" + (c2 + "\n"));
    CancelPrefix("\n", c1 + "\n", c2 + "\n");
    CancelSuffix(c1, c2, "\n");
  }

  lemma BlockShape(head: string, r: string, rule: string, c: string)
    ensures head + r + "\n" + rule + "\n" + c + "\n" == head + (r + ("\n" + (rule + ("\n" + (c + "\n")))))
  {
  }

  lemma CancelPrefix<T>(a: seq<T>, x: seq<T>, y: seq<T>)
    requires a + x == a + y
    ensures x == y
  {
    assert x == (a + x)[|a|..];
    assert y == (a + y)[|a|..];
  }

  lemma CancelSuffix<T>(x: seq<T>, y: seq<T>, e: seq<T>)
    requires x + e == y + e
    ensures x == y
  {
    assert x == (x + e)[..|x + e| - |e|];
    assert y == (y + e)[..|y + e| - |e|];
  }

  /** Two strings without a newline, each followed by a newline and more text,
      are equal when the whole texts are: the first newline is where both end. */
  lemma SplitAtNewline(r1: string, x1: string, r2: string, x2: string)
    requires '\n' !in r1 && '\n' !in r2
    requires r1 + ("\n" + x1) == r2 + ("\n" + x2)
    ensures r1 == r2 && x1 == x2
  {
    var t := r1 + ("\n" + x1);
    assert t[|r1|] == '\n';
    assert t[|r2|] == '\n';
    assert forall i :: 0 <= i < |r1| ==> t[i] == r1[i];
    assert forall i :: 0 <= i < |r2| ==> t[i] == r2[i];
    assert |r1| == |r2|;
    assert r1 == t[..|r1|];
    assert r2 == t[..|r2|];
    CancelPrefix(r1, "\n" + x1, "\n" + x2);
    CancelPrefix("\n", x1, x2);
  }
}
