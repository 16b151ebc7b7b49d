/** The corpus search engine: a tree `root/<series>/<chapter>.txt` of
    plain-text chapters, loaded once and then searched line by line.

    The file system is an input: `Listings` maps a directory path to the
    entries a directory read returns, in the order returned (a path that is
    absent cannot be read), and `Files` maps a file path to its contents. */
module Corpus {
  import opened Wrappers
  import opened Strings

  datatype Entry = Entry(name: string, isDir: bool)

  type Listings = map<string, seq<Entry>>
  type Files = map<string, string>

  /** The errors the engine produces. `Wrapped` is a message wrapped around
      a cause, as the pkg/errors package does. */
  datatype Error =
    | ChapterNotFound
    | PathError(path: string)
    | Wrapped(message: string, cause: Error)

  /** The innermost error, which is what `errors.Cause` digs out. */
  function Cause(e: Error): (c: Error)
    ensures !c.Wrapped?
  {
    match e
    case Wrapped(_, inner) => Cause(inner)
    case _ => e
  }

  lemma CauseOfWrapped(message: string, e: Error)
    ensures Cause(Wrapped(message, e)) == Cause(e)
    ensures Cause(Wrapped(message, e)) != Wrapped(message, e)
  {
  }

  /** The path of `name` inside directory `dir`. */
  function JoinPath(dir: string, name: string): string {
    dir + "/" + name
  }

  // ---- file extensions ---------------------------------------------------

  predicate EndsWith(s: string, suffix: string) {
    |suffix| <= |s| && s[|s| - |suffix|..] == suffix
  }

  /** Go's `filepath.Ext`: the suffix of `p` from its last '.', provided
      no '/' follows that dot; "" when there is no such dot. */
  function Ext(p: string): (e: string)
    ensures e == [] || (e[0] == '.' && EndsWith(p, e) && '/' !in e)
    decreases |p|
  {
    if p == [] then ""
    else
      var c := p[|p| - 1];
      if c == '/' then ""
      else if c == '.' then "."
      else
        var e := Ext(p[..|p| - 1]);
        if e == [] then "" else e + [c]
  }

  lemma ExtStep(p: string, c: char)
    requires c != '/' && c != '.'
    ensures Ext(p + [c]) == if Ext(p) == [] then [] else Ext(p) + [c]
  {
    assert (p + [c])[..|p|] == p;
  }

  /** A path ending in a dot followed by characters that are neither '.'
      nor '/' has that suffix as its extension. */
  lemma {:induction false} ExtOfSuffix(q: string, s: string)
    requires s != [] && s[0] == '.'
    requires forall k :: 1 <= k < |s| ==> s[k] != '/' && s[k] != '.'
    ensures Ext(q + s) == s
    decreases |s|
  {
    if |s| > 1 {
      var s', c := s[..|s| - 1], s[|s| - 1];
      assert q + s == (q + s') + [c];
      ExtOfSuffix(q, s');
      ExtStep(q + s', c);
      assert s == s' + [c];
    } else {
      assert (q + s)[|q + s| - 1] == '.';
    }
  }

  /** A path has extension ".txt" exactly when it ends with ".txt". */
  lemma ExtIsTxt(p: string)
    ensures Ext(p) == ".txt" <==> EndsWith(p, ".txt")
  {
    if EndsWith(p, ".txt") {
      var q := p[..|p| - 4];
      assert p == q + ".txt";
      ExtOfSuffix(q, ".txt");
    }
  }

  /** Whether a listed file is a chapter depends only on its own name. */
  lemma JoinPathIsTxt(dir: string, name: string)
    ensures Ext(JoinPath(dir, name)) == ".txt" <==> EndsWith(name, ".txt")
  {
    var fp := JoinPath(dir, name);
    ExtIsTxt(fp);
    if |name| >= 4 {
      assert fp[|fp| - 4..] == name[|name| - 4..];
    } else if |fp| >= 4 {
      assert fp[|fp| - 1 - |name|] == '/';
      assert fp[|fp| - 4..][3 - |name|] == '/';
    }
  }

  // ---- line scanning -------------------------------------------------------

  /** A line without its trailing carriage return. */
  function DropCR(line: string): (r: string)
    ensures r == line || line == r + "\r"
  {
    if |line| > 0 && line[|line| - 1] == '\r' then line[..|line| - 1] else line
  }

  /** The lines a `bufio.Scanner` with the default line splitter yields:
      the text between newlines, each without a trailing "\r", and no empty
      token after a final newline. */
  function ScanLines(s: string): (lines: seq<string>)
    ensures s == [] <==> lines == []
    decreases |s|
  {
    if s == [] then []
    else match IndexOf(s, "\n")
      case None => [DropCR(s)]
      case Some(i) => [DropCR(s[..i])] + ScanLines(s[i + 1..])
  }

  /** The text after one scan: the first line, or "" when there is none. */
  function FirstLine(s: string): string {
    var lines := ScanLines(s);
    if lines == [] then "" else lines[0]
  }

  /** Everything up to the first "\n", or the whole string without one. */
  function FirstSegment(s: string): string {
    match IndexOf(s, "\n")
    case None => s
    case Some(i) => s[..i]
  }

  /** The first scanned line is the first segment with a trailing "\r"
      removed, so the two agree exactly when the segment has no such "\r". */
  lemma FirstLineIsFirstSegment(s: string)
    ensures FirstLine(s) == DropCR(FirstSegment(s))
    ensures FirstLine(s) == FirstSegment(s)
        <==> !(|FirstSegment(s)| > 0 && FirstSegment(s)[|FirstSegment(s)| - 1] == '\r')
  {
    var seg := FirstSegment(s);
    if |seg| > 0 && seg[|seg| - 1] == '\r' {
      assert |DropCR(seg)| == |seg| - 1;
    }
  }

  /** No scanned line holds a newline. */
  lemma {:induction false} ScanLinesNoNewline(s: string)
    ensures forall k :: 0 <= k < |ScanLines(s)| ==> '\n' !in ScanLines(s)[k]
    decreases |s|
  {
    if s != [] {
      match IndexOf(s, "\n")
      case None =>
        NotContainsChar(s, '\n');
      case Some(i) =>
        OccursInPrefix(s, "\n", i);
        NotContainsChar(s[..i], '\n');
        ScanLinesNoNewline(s[i + 1..]);
        var tail := ScanLines(s[i + 1..]);
        assert ScanLines(s) == [DropCR(s[..i])] + tail;
    }
  }

  // ---- chapters --------------------------------------------------------------

  /** One matching line and the chapter it comes from. */
  datatype Result = Result(line: string, chapter: Chapter)

  /** The results of scanning `lines` of chapter `c` for `word`, top to bottom. */
  function Hits(lines: seq<string>, word: string, c: Chapter): seq<Result>
    decreases |lines|
  {
    if lines == [] then []
    else
      var rest := Hits(lines[..|lines| - 1], word, c);
      var line := lines[|lines| - 1];
      if Contains(line, word) then rest + [Result(line, c)] else rest
  }

  /** Scanning two runs of lines one after the other gives the results of
      the first run followed by those of the second. */
  lemma {:induction false} HitsConcat(a: seq<string>, b: seq<string>, word: string, c: Chapter)
    ensures Hits(a + b, word, c) == Hits(a, word, c) + Hits(b, word, c)
    decreases |b|
  {
    if b != [] {
      var b' := b[..|b| - 1];
      assert (a + b)[..|a + b| - 1] == a + b';
      var line := b[|b| - 1];
      assert (a + b)[|a + b| - 1] == line;
      HitsConcat(a, b', word, c);
      if Contains(line, word) {
        calc {
          Hits(a + b, word, c);
          Hits(a + b', word, c) + [Result(line, c)];
          (Hits(a, word, c) + Hits(b', word, c)) + [Result(line, c)];
          Hits(a, word, c) + (Hits(b', word, c) + [Result(line, c)]);
          Hits(a, word, c) + Hits(b, word, c);
        }
      }
    } else {
      assert a + b == a;
    }
  }

  /** A single line yields one result exactly when it contains the word. */
  lemma HitsOne(line: string, word: string, c: Chapter)
    ensures Hits([line], word, c) == if Contains(line, word) then [Result(line, c)] else []
  {
    assert [line][..0] == [];
  }

  /** A result is produced for a line exactly when the line contains the
      word, and every result refers to the chapter scanned. */
  lemma {:induction false} HitsMembers(lines: seq<string>, word: string, c: Chapter)
    ensures forall r :: r in Hits(lines, word, c) <==>
      (r.chapter == c && r.line in lines && Contains(r.line, word))
    decreases |lines|
  {
    if lines != [] {
      var init := lines[..|lines| - 1];
      HitsMembers(init, word, c);
      assert lines == init + [lines[|lines| - 1]];
    }
  }

  /** Every line contains the empty word, so scanning for "" returns every
      line, empty ones included. */
  lemma {:induction false} HitsEmptyWord(lines: seq<string>, c: Chapter)
    ensures |Hits(lines, "", c)| == |lines|
    ensures forall k :: 0 <= k < |lines| ==> Hits(lines, "", c)[k] == Result(lines[k], c)
    decreases |lines|
  {
    if lines != [] {
      var init := lines[..|lines| - 1];
      HitsEmptyWord(init, c);
      assert OccursAt(lines[|lines| - 1], "", 0);
    }
  }

  /** A chapter: its place in the tree is fixed when it is created, its body
      and title are filled in by `Load`. */
  class Chapter {
    const series: string
    const path: string
    const filename: string
    var body: string
    var title: string

    constructor (series: string, path: string, filename: string)
      ensures this.series == series && this.path == path && this.filename == filename
      ensures body == "" && title == ""
    {
      this.series := series;
      this.path := path;
      this.filename := filename;
      body := "";
      title := "";
    }

    function Body(): string
      reads this
    {
      body
    }

    function Title(): string
      reads this
    {
      title
    }

    /** The body after its first "\n"; "" when it has none. */
    function BodyWithoutTitle(): (r: string)
      reads this
      ensures IndexOf(body, "\n").None? ==> r == ""
      ensures IndexOf(body, "\n").Some? ==> r == body[IndexOf(body, "\n").value + 1..]
    {
      var parts := Split(body, "\n");
      BodyWithoutTitleParts(body);
      Join(parts[1..], "\n")
    }

    /** Reads the body from the file system and takes its first line as the
        title. A missing file leaves the chapter as it was. */
    method Load(files: Files) returns (err: Option<Error>)
      modifies this
      ensures path !in files ==> err == Some(Wrapped("could not load body for chapter: " + path, PathError(path)))
      ensures path !in files ==> body == old(body) && title == old(title)
      ensures path in files ==> err == None && body == files[path] && title == FirstLine(body)
    {
      if path !in files {
        return Some(Wrapped("could not load body for chapter: " + path, PathError(path)));
      }
      body := files[path];
      var lines := ScanLines(body);
      if lines == [] {
        title := "";
      } else {
        title := lines[0];
      }
      err := None;
    }

    /** Every scanned line of the body that contains `word`, top to bottom. */
    method Find(word: string) returns (results: seq<Result>)
      ensures results == Hits(ScanLines(body), word, this)
    {
      var lines := ScanLines(body);
      results := [];
      var i := 0;
      while i < |lines|
        invariant 0 <= i <= |lines|
        invariant results == Hits(lines[..i], word, this)
      {
        assert lines[..i + 1][..i] == lines[..i];
        if Contains(lines[i], word) {
          results := results + [Result(lines[i], this)];
        }
        i := i + 1;
      }
      assert lines[..i] == lines;
    }
  }

  lemma BodyWithoutTitleParts(body: string)
    ensures IndexOf(body, "\n").None? ==> Join(Split(body, "\n")[1..], "\n") == ""
    ensures IndexOf(body, "\n").Some? ==>
      Join(Split(body, "\n")[1..], "\n") == body[IndexOf(body, "\n").value + 1..]
  {
    var r := IndexOf(body, "\n");
    if r.Some? {
      var rest := body[r.value + 1..];
      assert Split(body, "\n") == [body[..r.value]] + Split(rest, "\n");
      assert Split(body, "\n")[1..] == Split(rest, "\n");
      JoinSplit(rest, "\n");
    }
  }

  /** A body with a newline is its first segment, the newline and the rest. */
  lemma BodySplitsAtFirstNewline(c: Chapter)
    requires IndexOf(c.body, "\n").Some?
    ensures c.body == FirstSegment(c.body) + "\n" + c.BodyWithoutTitle()
  {
    var i := IndexOf(c.body, "\n").value;
    assert c.body == c.body[..i] + c.body[i..i + 1] + c.body[i + 1..];
  }

  /** After a successful load, an empty file gives an empty body and title. */
  lemma EmptyBodyHasNoTitleOrResults(c: Chapter, word: string)
    requires c.body == ""
    ensures FirstLine(c.body) == "" && c.BodyWithoutTitle() == ""
    ensures Hits(ScanLines(c.body), word, c) == []
  {
  }

  // ---- loading -------------------------------------------------------------

  /** What identifies a chapter in the tree. */
  datatype Info = Info(series: string, path: string, filename: string)

  function InfoOf(c: Chapter): Info {
    Info(c.series, c.path, c.filename)
  }

  function Infos(cs: seq<Chapter>): (r: seq<Info>)
    ensures |r| == |cs|
  {
    seq(|cs|, k requires 0 <= k < |cs| => InfoOf(cs[k]))
  }

  predicate Distinct(cs: seq<Chapter>) {
    forall i, j :: 0 <= i < j < |cs| ==> cs[i] != cs[j]
  }

  /** The chapters a series directory contributes: one per entry whose path
      has extension ".txt", in listing order. */
  function TxtInfos(series: string, dir: string, entries: seq<Entry>): seq<Info>
    decreases |entries|
  {
    if entries == [] then []
    else
      var rest := TxtInfos(series, dir, entries[..|entries| - 1]);
      var name := entries[|entries| - 1].name;
      var fp := JoinPath(dir, name);
      if Ext(fp) == ".txt" then rest + [Info(series, fp, name)] else rest
  }

  /** The same selection, written in terms of entry names only. */
  function NamedTxt(series: string, dir: string, entries: seq<Entry>): seq<Info> {
    if entries == [] then []
    else if EndsWith(entries[0].name, ".txt") then
      [Info(series, JoinPath(dir, entries[0].name), entries[0].name)] + NamedTxt(series, dir, entries[1..])
    else NamedTxt(series, dir, entries[1..])
  }

  lemma {:induction false} NamedTxtSnoc(series: string, dir: string, entries: seq<Entry>, e: Entry)
    ensures NamedTxt(series, dir, entries + [e]) == NamedTxt(series, dir, entries)
      + (if EndsWith(e.name, ".txt") then [Info(series, JoinPath(dir, e.name), e.name)] else [])
    decreases |entries|
  {
    if entries == [] {
      assert ([] + [e])[1..] == [];
    } else {
      assert (entries + [e])[1..] == entries[1..] + [e];
      NamedTxtSnoc(series, dir, entries[1..], e);
    }
  }

  /** The loader keeps exactly the entries whose name ends with ".txt", in
      listing order, and records series, joined path and file name. */
  lemma {:induction false} TxtInfosKeepsTxtNames(series: string, dir: string, entries: seq<Entry>)
    ensures TxtInfos(series, dir, entries) == NamedTxt(series, dir, entries)
    decreases |entries|
  {
    if entries != [] {
      var init := entries[..|entries| - 1];
      var e := entries[|entries| - 1];
      TxtInfosKeepsTxtNames(series, dir, init);
      JoinPathIsTxt(dir, e.name);
      NamedTxtSnoc(series, dir, init, e);
      assert entries == init + [e];
    }
  }

  lemma TxtInfosStep(series: string, dir: string, files: seq<Entry>, i: nat)
    requires i < |files|
    ensures TxtInfos(series, dir, files[..i + 1]) == TxtInfos(series, dir, files[..i])
      + (if Ext(JoinPath(dir, files[i].name)) == ".txt"
         then [Info(series, JoinPath(dir, files[i].name), files[i].name)] else [])
  {
    assert files[..i + 1][..i] == files[..i];
  }

  lemma InfosSnoc(cs: seq<Chapter>, c: Chapter)
    ensures Infos(cs + [c]) == Infos(cs) + [InfoOf(c)]
  {
  }

  /** Chapters whose body and title are not loaded yet. */
  predicate Blank(cs: seq<Chapter>)
    reads set c | c in cs
  {
    forall k :: 0 <= k < |cs| ==> cs[k].body == "" && cs[k].title == ""
  }

  lemma BlankConcat(a: seq<Chapter>, b: seq<Chapter>)
    requires Blank(a) && Blank(b)
    ensures Blank(a + b)
  {
    forall k | 0 <= k < |a + b|
      ensures (a + b)[k].body == "" && (a + b)[k].title == ""
    {
      if k >= |a| {
        assert (a + b)[k] == b[k - |a|];
      }
    }
  }

  lemma DistinctSnoc(cs: seq<Chapter>, c: Chapter)
    requires Distinct(cs) && c !in cs
    ensures Distinct(cs + [c])
  {
  }

  function ChaptersError(series: string, dir: string): Error {
    Wrapped("failed to read directory for series: " + series, PathError(dir))
  }

  /** One step of the directory scan: a new chapter for `name` when its
      path has extension ".txt". */
  method AddIfTxt(chapters: seq<Chapter>, series: string, dir: string, name: string)
    returns (r: seq<Chapter>)
    requires Distinct(chapters) && Blank(chapters)
    ensures Infos(r) == Infos(chapters)
      + (if Ext(JoinPath(dir, name)) == ".txt" then [Info(series, JoinPath(dir, name), name)] else [])
    ensures Distinct(r) && Blank(r)
    ensures forall c :: c in r ==> c in chapters || fresh(c)
  {
    r := chapters;
    var fp := JoinPath(dir, name);
    if Ext(fp) == ".txt" {
      var c := new Chapter(series, fp, name);
      InfosSnoc(chapters, c);
      DistinctSnoc(chapters, c);
      BlankConcat(chapters, [c]);
      r := chapters + [c];
    }
  }

  /** Creates a chapter for every ".txt" entry of directory `dir`. */
  method LoadChapters(series: string, dir: string, listings: Listings)
    returns (r: Wrappers.Result<seq<Chapter>, Error>)
    ensures dir !in listings ==> r == Failure(ChaptersError(series, dir))
    ensures dir in listings ==> r.Success? && Infos(r.value) == TxtInfos(series, dir, listings[dir])
    ensures r.Success? ==> Distinct(r.value) && forall c :: c in r.value ==> fresh(c)
    ensures r.Success? ==> Blank(r.value)
  {
    if dir !in listings {
      return Failure(ChaptersError(series, dir));
    }
    var files := listings[dir];
    var chapters: seq<Chapter> := [];
    var i := 0;
    while i < |files|
      invariant 0 <= i <= |files|
      invariant Infos(chapters) == TxtInfos(series, dir, files[..i])
      invariant Distinct(chapters) && forall c :: c in chapters ==> fresh(c)
      invariant Blank(chapters)
    {
      TxtInfosStep(series, dir, files, i);
      chapters := AddIfTxt(chapters, series, dir, files[i].name);
      i := i + 1;
    }
    assert files[..i] == files;
    return Success(chapters);
  }

  function SeriesError(seriesPath: string, cause: Error): Error {
    Wrapped("failed to load chapters for series: " + seriesPath, cause)
  }

  /** What loading the series folders `folders` of `root` yields: the
      chapters of each directory entry in turn, or the error of the first
      series directory that cannot be read. Plain files are skipped. */
  function SeriesLoad(root: string, folders: seq<Entry>, listings: Listings): Wrappers.Result<seq<Info>, Error>
    decreases |folders|
  {
    if folders == [] then Success([])
    else
      var f := folders[|folders| - 1];
      match SeriesLoad(root, folders[..|folders| - 1], listings)
      case Failure(e) => Failure(e)
      case Success(acc) =>
        if !f.isDir then Success(acc)
        else
          var sp := JoinPath(root, f.name);
          if sp !in listings then Failure(SeriesError(sp, ChaptersError(f.name, sp)))
          else Success(acc + TxtInfos(f.name, sp, listings[sp]))
  }

  /** Loading the whole tree under `root`. */
  function TreeLoad(root: string, listings: Listings): Wrappers.Result<seq<Info>, Error> {
    if root !in listings then Failure(Wrapped("failed to load series folder", PathError(root)))
    else SeriesLoad(root, listings[root], listings)
  }

  /** Loading succeeds exactly when the root and every series directory in
      it can be read. */
  lemma {:induction false} SeriesLoadSucceedsIff(root: string, folders: seq<Entry>, listings: Listings)
    ensures SeriesLoad(root, folders, listings).Success?
      <==> forall k :: 0 <= k < |folders| && folders[k].isDir ==> JoinPath(root, folders[k].name) in listings
    decreases |folders|
  {
    if folders != [] {
      var init := folders[..|folders| - 1];
      SeriesLoadSucceedsIff(root, init, listings);
      assert forall k :: 0 <= k < |init| ==> init[k] == folders[k];
    }
  }

  /** A failed load is caused by a directory that cannot be read. */
  lemma {:induction false} SeriesLoadFailureCause(root: string, folders: seq<Entry>, listings: Listings)
    requires SeriesLoad(root, folders, listings).Failure?
    ensures Cause(SeriesLoad(root, folders, listings).error).PathError?
    ensures Cause(SeriesLoad(root, folders, listings).error).path !in listings
    decreases |folders|
  {
    var init := folders[..|folders| - 1];
    if SeriesLoad(root, init, listings).Failure? {
      SeriesLoadFailureCause(root, init, listings);
    } else {
      var f := folders[|folders| - 1];
      var sp := JoinPath(root, f.name);
      CauseOfWrapped("failed to load chapters for series: " + sp, ChaptersError(f.name, sp));
      CauseOfWrapped("failed to read directory for series: " + f.name, PathError(sp));
    }
  }

  /** Every loaded chapter lies in a directory entry of the root: plain
      files among the series folders contribute nothing. */
  lemma {:induction false} SeriesLoadOnlyDirs(root: string, folders: seq<Entry>, listings: Listings)
    requires SeriesLoad(root, folders, listings).Success?
    ensures forall info :: info in SeriesLoad(root, folders, listings).value ==>
      exists k :: 0 <= k < |folders| && folders[k].isDir && folders[k].name == info.series
        && info.path == JoinPath(JoinPath(root, info.series), info.filename)
        && EndsWith(info.filename, ".txt")
    decreases |folders|
  {
    if folders != [] {
      var n := |folders| - 1;
      var init := folders[..n];
      var f := folders[n];
      SeriesLoadOnlyDirs(root, init, listings);
      assert forall k :: 0 <= k < |init| ==> init[k] == folders[k];
      if f.isDir {
        var sp := JoinPath(root, f.name);
        TxtInfosKeepsTxtNames(f.name, sp, listings[sp]);
        NamedTxtShape(f.name, sp, listings[sp]);
      }
    }
  }

  lemma {:induction false} NamedTxtShape(series: string, dir: string, entries: seq<Entry>)
    ensures forall info :: info in NamedTxt(series, dir, entries) ==>
      info.series == series && info.path == JoinPath(dir, info.filename) && EndsWith(info.filename, ".txt")
    decreases |entries|
  {
    if entries != [] {
      NamedTxtShape(series, dir, entries[1..]);
    }
  }

  /** Creates the chapters of every series directory under `root`. */
  method LoadSeries(root: string, listings: Listings) returns (r: Wrappers.Result<seq<Chapter>, Error>)
    ensures r.Failure? <==> TreeLoad(root, listings).Failure?
    ensures r.Failure? ==> r.error == TreeLoad(root, listings).error
    ensures r.Success? ==> Infos(r.value) == TreeLoad(root, listings).value
    ensures r.Success? ==> Distinct(r.value) && forall c :: c in r.value ==> fresh(c)
    ensures r.Success? ==> Blank(r.value)
  {
    if root !in listings {
      return Failure(Wrapped("failed to load series folder", PathError(root)));
    }
    var folders := listings[root];
    var chapters: seq<Chapter> := [];
    var i := 0;
    while i < |folders|
      invariant 0 <= i <= |folders|
      invariant SeriesLoad(root, folders[..i], listings) == Success(Infos(chapters))
      invariant Distinct(chapters) && forall c :: c in chapters ==> fresh(c)
      invariant Blank(chapters)
    {
      SeriesLoadStep(root, folders, listings, i, Infos(chapters));
      var f := folders[i];
      if f.isDir {
        var seriesPath := JoinPath(root, f.name);
        var loaded := LoadChapters(f.name, seriesPath, listings);
        if loaded.Failure? {
          SeriesLoadStopsAtFailure(root, folders, listings, i + 1);
          assert folders[..|folders|] == folders;
          return Failure(SeriesError(seriesPath, loaded.error));
        }
        InfosConcat(chapters, loaded.value);
        DistinctConcat(chapters, loaded.value);
        BlankConcat(chapters, loaded.value);
        chapters := chapters + loaded.value;
      }
      i := i + 1;
    }
    assert folders[..i] == folders;
    return Success(chapters);
  }

  lemma SeriesLoadStep(root: string, folders: seq<Entry>, listings: Listings, i: nat, acc: seq<Info>)
    requires i < |folders| && SeriesLoad(root, folders[..i], listings) == Success(acc)
    ensures var f, sp := folders[i], JoinPath(root, folders[i].name);
      SeriesLoad(root, folders[..i + 1], listings) ==
        if !f.isDir then Success(acc)
        else if sp !in listings then Failure(SeriesError(sp, ChaptersError(f.name, sp)))
        else Success(acc + TxtInfos(f.name, sp, listings[sp]))
  {
    assert folders[..i + 1][..i] == folders[..i];
  }

  /** Once a prefix of the folders fails, loading all of them fails the same way. */
  lemma {:induction false} SeriesLoadStopsAtFailure(root: string, folders: seq<Entry>, listings: Listings, n: nat)
    requires n <= |folders|
    requires SeriesLoad(root, folders[..n], listings).Failure?
    ensures SeriesLoad(root, folders, listings) == SeriesLoad(root, folders[..n], listings)
    decreases |folders| - n
  {
    if n < |folders| {
      var m := |folders| - 1;
      assert folders[..m][..n] == folders[..n];
      SeriesLoadStopsAtFailure(root, folders[..m], listings, n);
    } else {
      assert folders[..n] == folders;
    }
  }

  lemma DistinctConcat(a: seq<Chapter>, b: seq<Chapter>)
    requires Distinct(a) && Distinct(b)
    requires forall x, y :: x in a && y in b ==> x != y
    ensures Distinct(a + b)
  {
    forall i, j | 0 <= i < j < |a + b|
      ensures (a + b)[i] != (a + b)[j]
    {
      if j < |a| {
      } else if i >= |a| {
        assert (a + b)[i] == b[i - |a|] && (a + b)[j] == b[j - |a|];
      } else {
        assert (a + b)[i] in a && (a + b)[j] in b;
      }
    }
  }

  lemma InfosConcat(a: seq<Chapter>, b: seq<Chapter>)
    ensures Infos(a + b) == Infos(a) + Infos(b)
  {
  }

  /** A loaded chapter holds its file and the file's first line; a chapter
      whose file is missing stays empty. */
  predicate Loaded(c: Chapter, files: Files)
    reads c
  {
    if c.path in files then c.body == files[c.path] && c.title == FirstLine(c.body)
    else c.body == "" && c.title == ""
  }

  // ---- the corpus ------------------------------------------------------------

  /** `order` lists every index below `n` exactly once. */
  predicate IsPermutation(order: seq<nat>, n: nat) {
    multiset(order) == multiset(Range(n))
  }

  lemma PermutationBelow(order: seq<nat>, n: nat)
    requires IsPermutation(order, n)
    ensures Below(order, n)
  {
    forall k | 0 <= k < |order|
      ensures order[k] < n
    {
      assert order[k] in multiset(Range(n));
    }
  }

  function Range(n: nat): (r: seq<nat>)
    ensures |r| == n && forall k :: 0 <= k < n ==> r[k] == k
  {
    if n == 0 then [] else Range(n - 1) + [n - 1]
  }

  /** The results of scanning chapter `c` for `word`. */
  function ChapterHits(c: Chapter, word: string): seq<Result>
    reads c
  {
    Hits(ScanLines(c.body), word, c)
  }

  /** Every index in `order` is below `n`. */
  predicate Below(order: seq<nat>, n: nat) {
    forall k :: 0 <= k < |order| ==> order[k] < n
  }

  /** Every chapter's results for `word`, by chapter index. */
  function AllHits(cs: seq<Chapter>, word: string): (r: seq<seq<Result>>)
    reads set c | c in cs
    ensures |r| == |cs| && forall k :: 0 <= k < |cs| ==> r[k] == ChapterHits(cs[k], word)
  {
    seq(|cs|, k reads set c | c in cs requires 0 <= k < |cs| => ChapterHits(cs[k], word))
  }

  /** The blocks `order` picks, one after another. */
  function Gather<T>(blocks: seq<seq<T>>, order: seq<nat>): seq<T>
    requires Below(order, |blocks|)
    decreases |order|
  {
    if order == [] then []
    else Gather(blocks, order[..|order| - 1]) + blocks[order[|order| - 1]]
  }

  lemma {:induction false} GatherConcat<T>(blocks: seq<seq<T>>, a: seq<nat>, b: seq<nat>)
    requires Below(a, |blocks|) && Below(b, |blocks|)
    ensures Below(a + b, |blocks|)
    ensures Gather(blocks, a + b) == Gather(blocks, a) + Gather(blocks, b)
    decreases |b|
  {
    if b != [] {
      var b' := b[..|b| - 1];
      var x := b[|b| - 1];
      assert (a + b)[..|a + b| - 1] == a + b';
      assert (a + b)[|a + b| - 1] == x;
      GatherConcat(blocks, a, b');
    } else {
      assert a + b == a;
    }
  }

  /** The order in which the chapters are scanned changes only the order of
      the blocks, never which results there are. */
  lemma {:induction false} GatherPermutation<T>(blocks: seq<seq<T>>, o1: seq<nat>, o2: seq<nat>)
    requires Below(o1, |blocks|) && Below(o2, |blocks|)
    requires multiset(o1) == multiset(o2)
    ensures multiset(Gather(blocks, o1)) == multiset(Gather(blocks, o2))
    decreases |o1|
  {
    if o1 == [] {
      assert o2 == [] by {
        assert |multiset(o2)| == 0;
      }
    } else {
      var n := |o1| - 1;
      var x := o1[n];
      assert o1 == o1[..n] + [x];
      assert x in multiset(o2);
      var j :| 0 <= j < |o2| && o2[j] == x;
      var rest := Without(o2, j);
      RemoveAt(o2, j, |blocks|);
      assert multiset(o1[..n]) == multiset(o1) - multiset{x};
      GatherPermutation(blocks, o1[..n], rest);
      GatherAround(blocks, o2, j);
    }
  }

  /** `o` without its element at `j`. */
  function Without(o: seq<nat>, j: nat): (r: seq<nat>)
    requires j < |o|
    ensures |r| == |o| - 1
  {
    o[..j] + o[j + 1..]
  }

  /** Taking out the element at `j` removes one copy of it. */
  lemma RemoveAt(o: seq<nat>, j: nat, bound: nat)
    requires j < |o|
    requires Below(o, bound)
    ensures multiset(Without(o, j)) == multiset(o) - multiset{o[j]}
    ensures Below(Without(o, j), bound)
  {
    assert o == o[..j] + [o[j]] + o[j + 1..];
    var rest := Without(o, j);
    forall k | 0 <= k < |rest|
      ensures rest[k] < bound
    {
      if k < j {
        assert rest[k] == o[k];
      } else {
        assert rest[k] == o[k + 1];
      }
    }
  }

  /** The block at position `j` can be moved to the end without changing
      which results there are. */
  lemma GatherAround<T>(blocks: seq<seq<T>>, o: seq<nat>, j: nat)
    requires j < |o|
    requires Below(o, |blocks|) && Below(Without(o, j), |blocks|)
    ensures multiset(Gather(blocks, o))
      == multiset(Gather(blocks, Without(o, j))) + multiset(blocks[o[j]])
  {
    var x := o[j];
    var a, b := o[..j], o[j + 1..];
    SplitAround(o, j, |blocks|);
    assert Gather(blocks, [x]) == blocks[x] by {
      assert [x][..0] == [];
    }
    GatherConcat(blocks, a, [x]);
    GatherConcat(blocks, a + [x], b);
    GatherConcat(blocks, a, b);
    var ga, gb, hx := Gather(blocks, a), Gather(blocks, b), blocks[x];
    assert multiset((ga + hx) + gb) == multiset(ga + gb) + multiset(hx);
  }

  /** `o` is the part before `j`, the element at `j` and the part after. */
  lemma SplitAround(o: seq<nat>, j: nat, bound: nat)
    requires j < |o| && Below(o, bound)
    ensures o == (o[..j] + [o[j]]) + o[j + 1..]
    ensures Without(o, j) == o[..j] + o[j + 1..]
    ensures Below(o[..j], bound) && Below(o[j + 1..], bound) && Below([o[j]], bound)
  {
    assert o == (o[..j] + [o[j]]) + o[j + 1..];
    var b := o[j + 1..];
    forall k | 0 <= k < |b| ensures b[k] < bound {
      assert b[k] == o[j + 1 + k];
    }
  }

  /** A corpus: the chapters loaded from one tree. */
  class Corpus {
    const chapters: seq<Chapter>

    constructor (chapters: seq<Chapter>)
      ensures this.chapters == chapters
    {
      this.chapters := chapters;
    }

    /** The chapter of series `series` named `filename`: the first such in
        load order. */
    method FindOriginal(series: string, filename: string) returns (r: Wrappers.Result<Chapter, Error>)
      ensures r.Failure? <==> forall k :: 0 <= k < |chapters| ==>
        !(chapters[k].series == series && chapters[k].filename == filename)
      ensures r.Failure? ==> r.error == ChapterNotFound
      ensures r.Success? ==> exists k :: (0 <= k < |chapters| && r.value == chapters[k]
        && chapters[k].series == series && chapters[k].filename == filename
        && forall j :: 0 <= j < k ==> !(chapters[j].series == series && chapters[j].filename == filename))
    {
      var i := 0;
      while i < |chapters|
        invariant 0 <= i <= |chapters|
        invariant forall j :: 0 <= j < i ==> !(chapters[j].series == series && chapters[j].filename == filename)
      {
        var ch := chapters[i];
        if ch.series == series && ch.filename == filename {
          return Success(ch);
        }
        i := i + 1;
      }
      return Failure(ChapterNotFound);
    }

    /** Every line of every chapter containing `word`. The chapters are
        scanned in the order `order` gives (in the source, the order in which
        concurrent scans finish); each chapter's results stay together and in
        line order. */
    method Search(word: string, order: seq<nat>) returns (results: seq<Result>)
      requires IsPermutation(order, |chapters|)
      ensures Below(order, |chapters|)
      ensures results == Gather(AllHits(chapters, word), order)
      ensures multiset(results) == multiset(Gather(AllHits(chapters, word), Range(|chapters|)))
    {
      PermutationBelow(order, |chapters|);
      ghost var blocks := AllHits(chapters, word);
      results := [];
      var i := 0;
      while i < |order|
        invariant 0 <= i <= |order|
        invariant results == Gather(blocks, order[..i])
      {
        assert order[..i + 1][..i] == order[..i];
        var res := chapters[order[i]].Find(word);
        assert res == blocks[order[i]];
        results := results + res;
        i := i + 1;
      }
      assert order[..i] == order;
      GatherPermutation(blocks, order, Range(|chapters|));
    }
  }

  /** Loads the tree under `root` and then every chapter's body. */
  method New(root: string, listings: Listings, files: Files) returns (r: Wrappers.Result<Corpus, Error>)
    ensures r.Failure? <==> TreeLoad(root, listings).Failure?
    ensures r.Failure? ==> r.error == TreeLoad(root, listings).error
    ensures r.Success? ==> fresh(r.value) && Infos(r.value.chapters) == TreeLoad(root, listings).value
    ensures r.Success? ==> forall c :: c in r.value.chapters ==> Loaded(c, files)
  {
    var loaded := LoadSeries(root, listings);
    if loaded.Failure? {
      return Failure(loaded.error);
    }
    var chapters := loaded.value;
    var i := 0;
    while i < |chapters|
      invariant 0 <= i <= |chapters|
      invariant Infos(chapters) == TreeLoad(root, listings).value
      invariant Distinct(chapters) && forall c :: c in chapters ==> fresh(c)
      invariant forall k :: 0 <= k < i ==> Loaded(chapters[k], files)
      invariant forall k :: i <= k < |chapters| ==> chapters[k].body == "" && chapters[k].title == ""
    {
      assert chapters[i] in chapters;
      var _ := chapters[i].Load(files);
      i := i + 1;
    }
    var cor := new Corpus(chapters);
    return Success(cor);
  }
}
