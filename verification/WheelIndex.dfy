/** The nightly wheel index (scripts/update_nightly_whl_index.py), as the text file that each run
    reads back, merges with its own links and rewrites. Strings are followed character by
    character: the links a run writes are recovered by splitting the file into lines and by the
    search for the wheel name inside a link. */
module WheelIndex {
  import opened Common

  /** A wheel in the dist directory: its file name and its SHA-256 digest. */
  datatype Wheel = Wheel(name: string, sha: string)

  /** One run of the script; `cuda` already carries its `cu` prefix. `commits` is the commit count in the
      nightly version, which the script is given and does not look at. */
  datatype Run = Run(cuda: string, tag: string, commits: nat, wheels: seq<Wheel>)

  // ----- Text ---------------------------------------------------------------------------

  predicate StartsWith(s: string, p: string) { |p| <= |s| && s[..|p|] == p }

  predicate EndsWith(s: string, p: string) { |p| <= |s| && s[|s| - |p|..] == p }

  /** The first position at or after `i` that holds `c`, or the length. */
  function IndexOf(s: string, c: char, i: nat): (k: nat)
    requires i <= |s|
    ensures i <= k <= |s|
    ensures k < |s| ==> s[k] == c
    ensures forall j | i <= j < k :: s[j] != c
    decreases |s| - i
  {
    if i == |s| || s[i] == c then i else IndexOf(s, c, i + 1)
  }

  /** str.split("\n"). */
  function Split(s: string): seq<string>
    decreases |s|
  {
    var k := IndexOf(s, '\n', 0);
    if k == |s| then [s] else [s[..k]] + Split(s[k + 1..])
  }

  /** Every line followed by a newline. */
  function Unlines(lines: seq<string>): string {
    if lines == [] then "" else lines[0] + "\n" + Unlines(lines[1..])
  }

  /** "\n".join. */
  function Join(lines: seq<string>): string {
    if lines == [] then ""
    else if |lines| == 1 then lines[0]
    else lines[0] + "\n" + Join(lines[1..])
  }

  ghost predicate OneLine(s: string) { '\n' !in s }

  lemma {:induction false} JoinIsUnlines(lines: seq<string>)
    requires lines != []
    ensures Join(lines) + "\n" == Unlines(lines)
  {
    if |lines| == 1 {
      assert lines[1..] == [];
      assert Unlines(lines[1..]) == "";
    } else {
      JoinIsUnlines(lines[1..]);
      assert lines[0] + "\n" + Join(lines[1..]) + "\n" == lines[0] + "\n" + (Join(lines[1..]) + "\n");
    }
  }

  lemma {:induction false} FirstAt(s: string, c: char, i: nat, k: nat)
    requires i <= k < |s| && s[k] == c && forall j | i <= j < k :: s[j] != c
    ensures IndexOf(s, c, i) == k
  {
  }

  lemma SplitLine(line: string, rest: string)
    requires OneLine(line)
    ensures Split(line + "\n" + rest) == [line] + Split(rest)
  {
    var s := line + "\n" + rest;
    FirstAt(s, '\n', 0, |line|);
    assert s[..|line|] == line && s[|line| + 1..] == rest;
  }

  lemma UnlinesCons(lines: seq<string>)
    ensures Split("") == [""] && Unlines([]) == ""
    ensures lines != [] ==> Unlines(lines) == lines[0] + "\n" + Unlines(lines[1..])
  {
  }

  lemma Cons(lines: seq<string>)
    requires lines != []
    ensures [lines[0]] + (lines[1..] + [""]) == lines + [""]
  {
  }

  /** Splitting gives back the lines that were written, and an empty last one. */
  lemma {:induction false} SplitUnlines(lines: seq<string>)
    requires forall i | 0 <= i < |lines| :: OneLine(lines[i])
    ensures Split(Unlines(lines)) == lines + [""]
  {
    hide Split, Unlines;
    UnlinesCons(lines);
    if lines != [] {
      SplitUnlines(lines[1..]);
      SplitLine(lines[0], Unlines(lines[1..]));
      Cons(lines);
    }
  }

  // ----- Links -----------------------------------------------------------------------------

  function BaseUrl(): string {
    "https://github.com" + "/sgl-project/whl" + "/releases/download"
  }

  function Url(tag: string, w: Wheel): string {
    BaseUrl() + "/" + tag + "/" + w.name + "#sha256=" + w.sha
  }

  function LinkText(url: string, name: string): string {
    "<a href=\"" + url + "\">" + name + "</a><br>"
  }

  /** The text between a `>` and the next `<`, if it is a wheel name closed by `</a>`. */
  function NameFrom(s: string, j: nat): Option<string>
    requires j <= |s|
  {
    var k := IndexOf(s, '<', j);
    var group := s[j..k];
    if |group| > 4 && EndsWith(group, ".whl") && StartsWith(s[k..], "</a>") then Some(group) else None
  }

  /** re.search(r">([^<]+\.whl)</a>"): leftmost match. */
  function FindName(s: string, i: nat): Option<string>
    requires i <= |s|
    decreases |s| - i
  {
    if i == |s| then None
    else if s[i] == '>' && NameFrom(s, i + 1).Some? then NameFrom(s, i + 1)
    else FindName(s, i + 1)
  }

  function NameOf(link: string): Option<string> { FindName(link, 0) }

  lemma {:induction false} SkipTo(s: string, i: nat, p: nat)
    requires i <= p <= |s| && forall j | i <= j < p :: s[j] != '>'
    ensures FindName(s, i) == FindName(s, p)
    decreases p - i
  {
    if i < p {
      SkipTo(s, i + 1, p);
    }
  }

  /** A file name that survives the trip through the index. */
  ghost predicate GoodName(name: string) {
    |name| > 4 && EndsWith(name, ".whl") && '<' !in name && '>' !in name && OneLine(name)
  }

  ghost predicate GoodText(s: string) { '>' !in s && OneLine(s) }

  /** The first `>` opens the name, the next `<` closes it. */
  lemma NameBetween(head: string, name: string, tail: string)
    requires '>' !in head && GoodName(name) && StartsWith(tail, "</a>")
    ensures FindName(head + ">" + name + tail, 0) == Some(name)
  {
    var s, p := head + ">" + name + tail, |head|;
    forall j | 0 <= j < p ensures s[j] != '>' { assert s[j] == head[j]; }
    SkipTo(s, 0, p);
    NameAfter(s, p, name, tail);
  }

  lemma NameAfter(s: string, p: nat, name: string, tail: string)
    requires p < |s| && s[p] == '>' && s[p + 1..] == name + tail && GoodName(name) && StartsWith(tail, "</a>")
    ensures FindName(s, p) == Some(name)
  {
    hide OneLine, FindName;
    var k := p + 1 + |name|;
    var rest := s[p + 1..];
    forall j | p + 1 <= j < k ensures s[j] != '<' { assert s[j] == rest[j - p - 1] == name[j - p - 1]; }
    assert s[k] == rest[|name|] == tail[0] == '<';
    FirstAt(s, '<', p + 1, k);
    assert s[p + 1..k] == rest[..|name|] == name;
    assert s[k..] == rest[|name|..] == tail;
    NameIsFound(s, p);
  }

  lemma NameIsFound(s: string, p: nat)
    requires p < |s| && s[p] == '>' && NameFrom(s, p + 1).Some?
    ensures FindName(s, p) == NameFrom(s, p + 1)
  {
  }

  /** The name search recovers the name of every link that a run writes. */
  lemma NameOfLink(url: string, name: string)
    requires '>' !in url && GoodName(name)
    ensures NameOf(LinkText(url, name)) == Some(name)
  {
    var head := "<a href=\"" + url + "\"";
    assert '>' !in head;
    assert "</a><br>"[..4] == "</a>";
    NameBetween(head, name, "</a><br>");
    hide FindName, GoodName;
    assert LinkText(url, name) == head + ">" + name + "</a><br>";
  }

  // ----- One run -------------------------------------------------------------------------------

  function LinksOf(run: Run): (r: seq<string>)
    ensures |r| == |run.wheels|
  {
    seq(|run.wheels|, i requires 0 <= i < |run.wheels| =>
      LinkText(Url(run.tag, run.wheels[i]), run.wheels[i].name))
  }

  function Header(cuda: string): seq<string> {
    ["<!DOCTYPE html>", "<h1>SGLang Nightly Wheels (" + cuda + ")</h1>"]
  }

  function Render(cuda: string, links: seq<string>): string {
    "<!DOCTYPE html>\n" + ("<h1>SGLang Nightly Wheels (" + cuda + ")</h1>\n") + Join(links) + "\n"
  }

  predicate IsLink(line: string) { StartsWith(line, "<a href=") }

  function KeepLinks(lines: seq<string>): seq<string> {
    if lines == [] then []
    else KeepLinks(lines[..|lines| - 1]) + if IsLink(lines[|lines| - 1]) then [lines[|lines| - 1]] else []
  }

  /** The links of an existing index file. */
  function Existing(content: Option<string>): seq<string> {
    if content.None? then [] else KeepLinks(Split(content.value))
  }

  /** The names already kept. */
  function Names(links: seq<string>): set<string> {
    set i | 0 <= i < |links| && NameOf(links[i]).Some? :: NameOf(links[i]).value
  }

  /** The first link of every name, in order; links without a wheel name are dropped. */
  function Unique(links: seq<string>): seq<string> {
    if links == [] then []
    else
      var u, l := Unique(links[..|links| - 1]), links[|links| - 1];
      if NameOf(l).Some? && NameOf(l).value !in Names(u) then u + [l] else u
  }

  lemma NamesAppend(u: seq<string>, l: string)
    requires NameOf(l).Some?
    ensures Names(u + [l]) == Names(u) + {NameOf(l).value}
  {
    var v := u + [l];
    forall n ensures n in Names(v) <==> n in Names(u) || n == NameOf(l).value {
      if n in Names(u) {
        var i :| 0 <= i < |u| && NameOf(u[i]) == Some(n);
        assert v[i] == u[i];
      }
      assert v[|u|] == l;
    }
  }

  /** The loop that removes duplicates. */
  method Dedupe(links: seq<string>) returns (unique: seq<string>)
    ensures unique == Unique(links)
  {
    var seen: set<string> := {};
    unique := [];
    for i := 0 to |links|
      invariant unique == Unique(links[..i]) && seen == Names(unique)
    {
      assert links[..i + 1][..i] == links[..i];
      var name := NameOf(links[i]);
      if name.Some? && name.value !in seen {
        NamesAppend(unique, links[i]);
        seen := seen + {name.value};
        unique := unique + [links[i]];
      }
    }
    assert links[..|links|] == links;
  }

  /** update_wheel_index on the package index file: the new content, or the error that leaves the
      file as it was. */
  function Updated(content: Option<string>, run: Run): Result<string> {
    if run.wheels == [] then Err("No wheels found")
    else Ok(Render(run.cuda, Unique(LinksOf(run) + Existing(content))))
  }

  class IndexFile {
    var content: Option<string>

    constructor ()
      ensures content == None
    {
      content := None;
    }

    method Update(run: Run) returns (r: Result<()>)
      modifies this
      ensures match Updated(old(content), run)
              case Ok(text) => r.Ok? && content == Some(text)
              case Err(m) => r == Err(m) && content == old(content)
    {
      var existing := Existing(content);
      var added := LinksOf(run);
      if added == [] {
        return Err("No wheels found");
      }
      var unique := Dedupe(added + existing);
      content := Some(Render(run.cuda, unique));
      r := Ok(());
    }
  }

  // ----- Reading back what was written ------------------------------------------------------------

  lemma {:induction false} KeepLinksConcat(a: seq<string>, b: seq<string>)
    ensures KeepLinks(a + b) == KeepLinks(a) + KeepLinks(b)
  {
    if b == [] {
      assert a + b == a;
    } else {
      assert (a + b)[..|a + b| - 1] == a + b[..|b| - 1];
      KeepLinksConcat(a, b[..|b| - 1]);
    }
  }

  lemma {:induction false} KeepLinksAll(links: seq<string>)
    requires forall i | 0 <= i < |links| :: IsLink(links[i])
    ensures KeepLinks(links) == links
  {
    if links != [] {
      KeepLinksAll(links[..|links| - 1]);
      assert links == links[..|links| - 1] + [links[|links| - 1]];
    }
  }

  lemma {:induction false} KeepNoLinks(lines: seq<string>)
    requires forall i | 0 <= i < |lines| :: !IsLink(lines[i])
    ensures KeepLinks(lines) == []
  {
    if lines != [] {
      KeepNoLinks(lines[..|lines| - 1]);
    }
  }

  lemma HeaderHasNoLinks(cuda: string)
    ensures forall i | 0 <= i < 2 :: !IsLink(Header(cuda)[i])
    ensures !IsLink("")
  {
    assert "<a href="[1] == 'a';
    forall i | 0 <= i < 2 ensures !IsLink(Header(cuda)[i]) {
      var line := Header(cuda)[i];
      assert line[..8][1] != 'a';
    }
  }

  lemma RenderIsLines(cuda: string, links: seq<string>)
    requires links != []
    ensures Render(cuda, links) == Unlines(Header(cuda) + links)
  {
    var h := Header(cuda);
    JoinIsUnlines(links);
    assert (h + links)[1..] == [h[1]] + links && (h + links)[1..][1..] == links;
    assert Unlines(h + links) == h[0] + "\n" + (h[1] + "\n" + Unlines(links));
    var title := "<h1>SGLang Nightly Wheels (" + cuda + ")</h1>\n";
    assert "<!DOCTYPE html>\n" == h[0] + "\n";
    assert title == h[1] + "\n";
    assert Render(cuda, links) == h[0] + "\n" + (title + (Join(links) + "\n"));
  }

  /** The extraction reads back exactly the links that were written. */
  lemma ReadBack(cuda: string, links: seq<string>)
    requires OneLine(cuda) && links != []
    requires forall i | 0 <= i < |links| :: IsLink(links[i]) && OneLine(links[i])
    ensures Existing(Some(Render(cuda, links))) == links
  {
    hide *;
    var h := Header(cuda);
    HeaderIsLines(cuda);
    RenderIsLines(cuda, links);
    SplitUnlines(h + links);
    KeepLinksConcat(h + links, [""]);
    KeepLinksConcat(h, links);
    KeepLinksAll(links);
    HeaderHasNoLinks(cuda);
    KeepNoLinks(h);
    KeepNoLinks([""]);
    assert [] + links + [] == links;
    ExistingLines(Render(cuda, links));
  }

  lemma ExistingLines(text: string)
    ensures Existing(Some(text)) == KeepLinks(Split(text))
  {
  }

  lemma HeaderIsLines(cuda: string)
    requires OneLine(cuda)
    ensures |Header(cuda)| == 2 && forall i | 0 <= i < 2 :: OneLine(Header(cuda)[i])
  {
  }

  // ----- Histories of runs ---------------------------------------------------------------------------

  ghost predicate GoodRun(run: Run) {
    && OneLine(run.cuda) && GoodText(run.tag)
    && (forall i | 0 <= i < |run.wheels| :: GoodName(run.wheels[i].name) && GoodText(run.wheels[i].sha))
    && (forall i, j | 0 <= i < j < |run.wheels| :: run.wheels[i].name != run.wheels[j].name)
  }

  /** The file after a sequence of runs, starting without a file; failed runs change nothing. */
  function History(runs: seq<Run>): Option<string> {
    if runs == [] then None
    else
      var before := History(runs[..|runs| - 1]);
      match Updated(before, runs[|runs| - 1])
      case Ok(text) => Some(text)
      case Err(_) => before
  }

  /** The links whose name is not in `names`. */
  function Drop(links: seq<string>, names: set<string>): seq<string> {
    if links == [] then []
    else
      var l := links[|links| - 1];
      Drop(links[..|links| - 1], names) + if NameOf(l).Some? && NameOf(l).value in names then [] else [l]
  }

  /** The index as it should be: the newest run's links, then what they do not replace. */
  function Index(runs: seq<Run>): seq<string> {
    if runs == [] then []
    else
      var last := runs[|runs| - 1];
      LinksOf(last) + Drop(Index(runs[..|runs| - 1]), Names(LinksOf(last)))
  }

  ghost predicate GoodLink(l: string) { IsLink(l) && OneLine(l) && NameOf(l).Some? }

  ghost predicate GoodLinks(links: seq<string>) {
    && (forall i | 0 <= i < |links| :: GoodLink(links[i]))
    && (forall i, j | 0 <= i < j < |links| :: NameOf(links[i]) != NameOf(links[j]))
  }

  lemma BaseUrlIsGood()
    ensures GoodText(BaseUrl())
  {
    assert '>' !in "https://github.com" && '>' !in "/sgl-project/whl" && '>' !in "/releases/download";
    assert '\n' !in "https://github.com" && '\n' !in "/sgl-project/whl" && '\n' !in "/releases/download";
  }

  lemma LinkIsGood(tag: string, w: Wheel)
    requires GoodText(tag) && GoodName(w.name) && GoodText(w.sha)
    ensures GoodLink(LinkText(Url(tag, w), w.name)) && NameOf(LinkText(Url(tag, w), w.name)) == Some(w.name)
  {
    var url := Url(tag, w);
    BaseUrlIsGood();
    assert '>' !in url && OneLine(url);
    NameOfLink(url, w.name);
    var l := LinkText(url, w.name);
    assert l[..8] == "<a href=";
  }

  lemma RunLinksAreGood(run: Run)
    requires GoodRun(run)
    ensures GoodLinks(LinksOf(run))
    ensures forall i | 0 <= i < |run.wheels| :: NameOf(LinksOf(run)[i]) == Some(run.wheels[i].name)
  {
    hide LinkText, Url, GoodLink, NameOf, GoodName, GoodText;
    forall i | 0 <= i < |run.wheels|
      ensures GoodLink(LinksOf(run)[i]) && NameOf(LinksOf(run)[i]) == Some(run.wheels[i].name)
    {
      LinkIsGood(run.tag, run.wheels[i]);
    }
  }

  lemma {:induction false} DropIsGood(links: seq<string>, names: set<string>)
    requires GoodLinks(links)
    ensures GoodLinks(Drop(links, names))
    ensures Names(Drop(links, names)) == Names(links) - names
  {
    if links != [] {
      var front, l := links[..|links| - 1], links[|links| - 1];
      DropIsGood(front, names);
      assert links == front + [l];
      NamesAppend(front, l);
      assert NameOf(l).value !in Names(front);
      if NameOf(l).value !in names {
        NamesAppend(Drop(front, names), l);
        NotAmong(Drop(front, names), l);
        assert Names(front) - names + {NameOf(l).value} == Names(front) + {NameOf(l).value} - names;
      } else {
        assert Drop(links, names) == Drop(front, names);
        assert Names(front) - names == Names(front) + {NameOf(l).value} - names;
      }
    }
  }

  lemma NotAmong(links: seq<string>, l: string)
    requires NameOf(l).Some? && NameOf(l).value !in Names(links)
    ensures forall i | 0 <= i < |links| :: NameOf(links[i]) != NameOf(l)
  {
    forall i | 0 <= i < |links| ensures NameOf(links[i]) != NameOf(l) {
      assert NameOf(links[i]).Some? ==> NameOf(links[i]).value in Names(links);
    }
  }

  lemma {:induction false} UniqueOfGood(links: seq<string>)
    requires GoodLinks(links)
    ensures Unique(links) == links
  {
    if links != [] {
      var front, l := links[..|links| - 1], links[|links| - 1];
      assert links == front + [l];
      UniqueOfGood(front);
    }
  }

  /** Merging keeps the new links and the old ones they do not replace. */
  lemma {:induction false} UniqueOfMerge(added: seq<string>, kept: seq<string>)
    requires GoodLinks(added) && GoodLinks(kept)
    ensures Unique(added + kept) == added + Drop(kept, Names(added))
  {
    hide NameOf, IsLink, OneLine;
    if kept == [] {
      assert added + kept == added;
      UniqueOfGood(added);
    } else {
      var front, l := kept[..|kept| - 1], kept[|kept| - 1];
      assert kept == front + [l];
      assert (added + kept)[..|added + kept| - 1] == added + front;
      UniqueOfMerge(added, front);
      DropIsGood(front, Names(added));
      NamesConcat(added, Drop(front, Names(added)));
      assert NameOf(l).value !in Names(front);
    }
  }

  lemma NamesConcat(a: seq<string>, b: seq<string>)
    ensures Names(a + b) == Names(a) + Names(b)
  {
    hide NameOf;
    forall n ensures n in Names(a + b) <==> n in Names(a) || n in Names(b) {
      if n in Names(a) {
        var i :| 0 <= i < |a| && NameOf(a[i]) == Some(n);
        assert (a + b)[i] == a[i];
      }
      if n in Names(b) {
        var i :| 0 <= i < |b| && NameOf(b[i]) == Some(n);
        assert (a + b)[|a| + i] == b[i];
      }
    }
  }

  lemma GoodConcat(a: seq<string>, b: seq<string>)
    requires GoodLinks(a) && GoodLinks(b) && Names(a) !! Names(b)
    ensures GoodLinks(a + b)
  {
    hide NameOf, IsLink, OneLine;
    forall i, j | 0 <= i < j < |a + b| ensures NameOf((a + b)[i]) != NameOf((a + b)[j]) {
      if i < |a| <= j {
        assert NameOf(a[i]).value in Names(a) && NameOf(b[j - |a|]).value in Names(b);
      }
    }
  }

  lemma NoLinksAreGood()
    ensures GoodLinks([])
  {
  }

  lemma {:induction false} IndexIsGood(runs: seq<Run>)
    requires forall i | 0 <= i < |runs| :: GoodRun(runs[i])
    ensures GoodLinks(Index(runs))
  {
    NoLinksAreGood();
    hide NameOf, GoodLinks, GoodRun;
    if runs != [] {
      var last, before := runs[|runs| - 1], Index(runs[..|runs| - 1]);
      IndexIsGood(runs[..|runs| - 1]);
      RunLinksAreGood(last);
      DropIsGood(before, Names(LinksOf(last)));
      GoodConcat(LinksOf(last), Drop(before, Names(LinksOf(last))));
    }
  }

  /** After every history of runs, reading the file gives exactly the index, and before the first
      successful run there is no file. */
  lemma {:induction false} HistoryIsIndex(runs: seq<Run>)
    requires forall i | 0 <= i < |runs| :: GoodRun(runs[i])
    ensures Existing(History(runs)) == Index(runs)
    ensures History(runs).None? <==> Index(runs) == []
  {
    hide NameOf, GoodLink, IsLink, OneLine, Existing, Render, Unique;
    if runs == [] {
      NothingExists();
    } else {
      var front, last := runs[..|runs| - 1], runs[|runs| - 1];
      HistoryIsIndex(front);
      IndexIsGood(front);
      IndexIsGood(runs);
      RunLinksAreGood(last);
      if last.wheels == [] {
        DropNothing(Index(front), Names(LinksOf(last)));
      } else {
        UniqueOfMerge(LinksOf(last), Index(front));
        GoodForReading(Index(runs));
        assert OneLine(last.cuda) by { GoodCuda(last); }
        ReadBack(last.cuda, Index(runs));
      }
    }
  }

  lemma NothingExists()
    ensures Existing(None) == []
  {
  }

  lemma GoodForReading(links: seq<string>)
    requires GoodLinks(links)
    ensures forall i | 0 <= i < |links| :: IsLink(links[i]) && OneLine(links[i])
  {
  }

  lemma GoodCuda(run: Run)
    requires GoodRun(run)
    ensures OneLine(run.cuda)
  {
  }

  lemma {:induction false} DropNothing(links: seq<string>, names: set<string>)
    requires names == {}
    ensures Drop(links, names) == links
  {
    if links != [] {
      DropNothing(links[..|links| - 1], names);
      assert links == links[..|links| - 1] + [links[|links| - 1]];
    }
  }

  // ----- What the index holds ------------------------------------------------------------------------

  /** All links of the index that carry the wheel name `n`. */
  function LinksFor(links: seq<string>, n: string): seq<string> {
    if links == [] then []
    else LinksFor(links[..|links| - 1], n) + if NameOf(links[|links| - 1]) == Some(n) then [links[|links| - 1]] else []
  }

  /** The link that a run writes for `n`. */
  function LinkIn(run: Run, wheels: seq<Wheel>, n: string): Option<string> {
    if wheels == [] then None
    else if wheels[|wheels| - 1].name == n then Some(LinkText(Url(run.tag, wheels[|wheels| - 1]), n))
    else LinkIn(run, wheels[..|wheels| - 1], n)
  }

  /** The link of the latest run that published `n`. */
  function LatestLink(runs: seq<Run>, n: string): Option<string> {
    if runs == [] then None
    else
      var last := runs[|runs| - 1];
      var l := LinkIn(last, last.wheels, n);
      if l.Some? then l else LatestLink(runs[..|runs| - 1], n)
  }

  function AsSeq(l: Option<string>): seq<string> { if l.None? then [] else [l.value] }

  lemma {:induction false} LinksForConcat(a: seq<string>, b: seq<string>, n: string)
    ensures LinksFor(a + b, n) == LinksFor(a, n) + LinksFor(b, n)
  {
    hide NameOf;
    if b == [] {
      assert a + b == a;
    } else {
      assert (a + b)[..|a + b| - 1] == a + b[..|b| - 1];
      LinksForConcat(a, b[..|b| - 1], n);
    }
  }

  lemma LinksForOne(l: string, n: string)
    ensures LinksFor([l], n) == if NameOf(l) == Some(n) then [l] else []
  {
    hide NameOf;
    assert [l][..0] == [];
  }

  lemma DropOne(l: string, names: set<string>)
    ensures Drop([l], names) == if NameOf(l).Some? && NameOf(l).value in names then [] else [l]
  {
    hide NameOf;
    assert [l][..0] == [];
  }

  lemma {:induction false} LinksForDrop(links: seq<string>, names: set<string>, n: string)
    ensures LinksFor(Drop(links, names), n) == if n in names then [] else LinksFor(links, n)
  {
    hide NameOf;
    if links != [] {
      var front, l := links[..|links| - 1], links[|links| - 1];
      LinksForDrop(front, names, n);
      LinksForConcat(Drop(front, names), [l], n);
      LinksForOne(l, n);
      assert Drop(front, names) + [] == Drop(front, names);
    }
  }

  lemma {:induction false} LinksForRun(run: Run, k: nat, n: string)
    requires GoodRun(run) && k <= |run.wheels|
    ensures LinksFor(LinksOf(run)[..k], n) == AsSeq(LinkIn(run, run.wheels[..k], n))
    ensures LinkIn(run, run.wheels[..k], n).Some? <==> n in Names(LinksOf(run)[..k])
  {
    hide NameOf, LinkText, Url, Names, GoodRun, LinksOf, LinksFor, LinkIn;
    if k > 0 {
      LinksForRun(run, k - 1, n);
      OneMoreLink(run, k - 1, n);
      if run.wheels[k - 1].name == n {
        NamesBelow(run, k - 1, n);
      }
    } else {
      NoNames();
      NoLinksFor(run, n);
    }
  }

  lemma NoLinksFor(run: Run, n: string)
    ensures LinksFor([], n) == [] && LinkIn(run, [], n) == None
  {
  }

  lemma OneMoreLink(run: Run, k: nat, n: string)
    requires GoodRun(run) && k < |run.wheels|
    ensures var links, w := LinksOf(run), run.wheels[k];
            && LinksFor(links[..k + 1], n)
               == LinksFor(links[..k], n) + (if w.name == n then [LinkText(Url(run.tag, w), n)] else [])
            && LinkIn(run, run.wheels[..k + 1], n)
               == (if w.name == n then Some(LinkText(Url(run.tag, w), n)) else LinkIn(run, run.wheels[..k], n))
            && Names(links[..k + 1]) == Names(links[..k]) + {w.name}
  {
    RunLinksAreGood(run);
    hide NameOf, LinkText, Url, Names, GoodRun, GoodLinks;
    var links := LinksOf(run);
    assert links[..k + 1][..k] == links[..k] && run.wheels[..k + 1][..k] == run.wheels[..k];
    assert links[..k + 1] == links[..k] + [links[k]];
    NamesAppend(links[..k], links[k]);
  }

  lemma NoNames()
    ensures Names([]) == {}
  {
  }

  /** Names in a run are distinct, so an earlier prefix does not hold the next name. */
  lemma NamesBelow(run: Run, k: nat, n: string)
    requires GoodRun(run) && k < |run.wheels| && run.wheels[k].name == n
    ensures n !in Names(LinksOf(run)[..k])
  {
    RunLinksAreGood(run);
    hide NameOf, LinkText, Url;
  }

  /** Across any history, the index holds exactly one link for every wheel name ever published, the
      one of the latest run that published it, and none for any other name. */
  lemma {:induction false} LatestRunWins(runs: seq<Run>, n: string)
    requires forall i | 0 <= i < |runs| :: GoodRun(runs[i])
    ensures LinksFor(Index(runs), n) == AsSeq(LatestLink(runs, n))
  {
    hide NameOf, GoodRun, LinksOf;
    if runs != [] {
      var last, before := runs[|runs| - 1], Index(runs[..|runs| - 1]);
      var added := LinksOf(last);
      LatestRunWins(runs[..|runs| - 1], n);
      LinksForRun(last, |last.wheels|, n);
      LinksOfSize(last);
      assert added[..|last.wheels|] == added && last.wheels[..|last.wheels|] == last.wheels;
      LinksForDrop(before, Names(added), n);
      LinksForConcat(added, Drop(before, Names(added)), n);
    }
  }

  lemma LinksOfSize(run: Run)
    ensures |LinksOf(run)| == |run.wheels|
  {
  }

  /** The newest run's links come first in the file. */
  lemma NewestFirst(runs: seq<Run>, run: Run)
    requires (forall i | 0 <= i < |runs| :: GoodRun(runs[i])) && GoodRun(run)
    ensures LinksOf(run) <= Existing(History(runs + [run]))
  {
    hide LinksOf, Existing, History, GoodRun;
    HistoryIsIndex(runs + [run]);
    assert (runs + [run])[..|runs|] == runs;
  }

  /** Publishing the same run again changes nothing, to the byte. */
  lemma RerunChangesNothing(runs: seq<Run>, run: Run)
    requires (forall i | 0 <= i < |runs| :: GoodRun(runs[i])) && GoodRun(run)
    ensures History(runs + [run] + [run]) == History(runs + [run])
  {
    hide NameOf, GoodLink, Existing, Render, Unique;
    var once, twice := runs + [run], runs + [run] + [run];
    assert once[..|runs|] == runs && twice[..|once|] == once;
    HistoryIsIndex(runs);
    HistoryIsIndex(once);
    IndexIsGood(runs);
    IndexIsGood(once);
    RunLinksAreGood(run);
    var added, rest := LinksOf(run), Drop(Index(runs), Names(LinksOf(run)));
    if run.wheels != [] {
      UniqueOfMerge(added, Index(runs));
      UniqueOfMerge(added, Index(once));
      DropConcat(added, rest, Names(added));
      DropOwn(added, Names(added));
      DropTwice(Index(runs), Names(added));
      assert Drop(Index(once), Names(added)) == rest;
    }
  }

  lemma {:induction false} DropConcat(a: seq<string>, b: seq<string>, names: set<string>)
    ensures Drop(a + b, names) == Drop(a, names) + Drop(b, names)
  {
    hide NameOf;
    if b == [] {
      assert a + b == a;
    } else {
      assert (a + b)[..|a + b| - 1] == a + b[..|b| - 1];
      DropConcat(a, b[..|b| - 1], names);
    }
  }

  lemma {:induction false} DropOwn(links: seq<string>, names: set<string>)
    requires GoodLinks(links) && Names(links) <= names
    ensures Drop(links, names) == []
  {
    hide NameOf, IsLink, OneLine;
    if links != [] {
      var front, l := links[..|links| - 1], links[|links| - 1];
      assert links == front + [l];
      NamesAppend(front, l);
      DropOwn(front, names);
    }
  }

  lemma {:induction false} DropTwice(links: seq<string>, names: set<string>)
    ensures Drop(Drop(links, names), names) == Drop(links, names)
  {
    hide NameOf;
    if links != [] {
      var front, l := links[..|links| - 1], links[|links| - 1];
      DropTwice(front, names);
      DropConcat(Drop(front, names), [l], names);
      DropOne(l, names);
      assert Drop(front, names) + [] == Drop(front, names);
    }
  }
}
