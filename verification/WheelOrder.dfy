/** In which order the nightly wheel index lists its links (scripts/update_nightly_whl_index.py). The
    script promises links by commit count, newest first, and orders them by run. */
module WheelOrder {
  import opened Common
  import opened WheelIndex

  /** A link of the index with the number of the run that wrote it. */
  datatype Stamp = Stamp(link: string, run: nat)

  function StampAll(links: seq<string>, run: nat): (r: seq<Stamp>)
    ensures |r| == |links| && forall i | 0 <= i < |r| :: r[i] == Stamp(links[i], run)
  {
    seq(|links|, i requires 0 <= i < |links| => Stamp(links[i], run))
  }

  function LinksIn(stamps: seq<Stamp>): (r: seq<string>)
    ensures |r| == |stamps| && forall i | 0 <= i < |r| :: r[i] == stamps[i].link
  {
    seq(|stamps|, i requires 0 <= i < |stamps| => stamps[i].link)
  }

  predicate Replaced(link: string, names: set<string>) {
    NameOf(link).Some? && NameOf(link).value in names
  }

  /** The stamps whose link has a name outside `names`. */
  function Surviving(stamps: seq<Stamp>, names: set<string>): (r: seq<Stamp>)
    ensures forall x :: x in r <==> x in stamps && !Replaced(x.link, names)
  {
    if stamps == [] then []
    else
      var front, x := stamps[..|stamps| - 1], stamps[|stamps| - 1];
      assert stamps == front + [x];
      Surviving(front, names) + if Replaced(x.link, names) then [] else [x]
  }

  /** The index with the run of every link. */
  function Stamped(runs: seq<Run>): seq<Stamp> {
    if runs == [] then []
    else
      var n := |runs| - 1;
      var added := LinksOf(runs[n]);
      StampAll(added, n) + Surviving(Stamped(runs[..n]), Names(added))
  }

  // ----- The stamps tell the truth about the file ------------------------------------------

  lemma {:induction false} SurvivingLinks(stamps: seq<Stamp>, names: set<string>)
    ensures LinksIn(Surviving(stamps, names)) == Drop(LinksIn(stamps), names)
  {
    hide NameOf;
    if stamps != [] {
      var n := |stamps| - 1;
      SurvivingLinks(stamps[..n], names);
      assert LinksIn(stamps)[..n] == LinksIn(stamps[..n]);
    }
  }

  lemma {:induction false} StampedIsIndex(runs: seq<Run>)
    ensures LinksIn(Stamped(runs)) == Index(runs)
  {
    hide NameOf, LinksOf, Surviving;
    if runs != [] {
      var n := |runs| - 1;
      var added := LinksOf(runs[n]);
      StampedIsIndex(runs[..n]);
      SurvivingLinks(Stamped(runs[..n]), Names(added));
      assert LinksIn(StampAll(added, n) + Surviving(Stamped(runs[..n]), Names(added)))
          == LinksIn(StampAll(added, n)) + LinksIn(Surviving(Stamped(runs[..n]), Names(added)));
      assert LinksIn(StampAll(added, n)) == added;
    }
  }

  /** Link `l` is written by run `k` and its name is not published again later. */
  ghost predicate Lasts(runs: seq<Run>, k: nat, l: string) {
    && k < |runs| && l in LinksOf(runs[k])
    && forall j | k < j < |runs| :: !Replaced(l, Names(LinksOf(runs[j])))
  }

  /** A stamp names a run that wrote the link, and every link that lasts is stamped with its run. */
  lemma {:induction false} StampedIffLasts(runs: seq<Run>, x: Stamp)
    ensures x in Stamped(runs) <==> Lasts(runs, x.run, x.link)
  {
    hide NameOf, LinksOf, Replaced, Names;
    if runs != [] {
      var n := |runs| - 1;
      var front, added := runs[..n], LinksOf(runs[n]);
      StampedIffLasts(front, x);
      assert x in StampAll(added, n) <==> x.run == n && x.link in added by {
        if x.run == n && x.link in added {
          var i :| 0 <= i < |added| && added[i] == x.link;
          assert StampAll(added, n)[i] == x;
        }
      }
      if Lasts(runs, x.run, x.link) && x.run < n {
        assert Lasts(front, x.run, x.link);
      }
      if Lasts(front, x.run, x.link) && !Replaced(x.link, Names(added)) {
        forall j | x.run < j < |runs| ensures !Replaced(x.link, Names(LinksOf(runs[j]))) {
          if j < n {
            assert front[j] == runs[j];
          }
        }
      }
    }
  }

  // ----- Order by run, and by commit ---------------------------------------------------------

  ghost predicate NewerFirst(stamps: seq<Stamp>) {
    forall i, j | 0 <= i < j < |stamps| :: stamps[i].run >= stamps[j].run
  }

  lemma {:induction false} SurvivingOrdered(stamps: seq<Stamp>, names: set<string>)
    requires NewerFirst(stamps)
    ensures NewerFirst(Surviving(stamps, names))
  {
    hide Replaced;
    if stamps != [] {
      var n := |stamps| - 1;
      var front, x := stamps[..n], stamps[n];
      SurvivingOrdered(front, names);
      var kept := Surviving(front, names);
      forall i | 0 <= i < |kept| ensures kept[i].run >= x.run {
        assert kept[i] in front;
        var k :| 0 <= k < n && stamps[k] == kept[i];
      }
    }
  }

  lemma {:induction false} StampedNewerFirst(runs: seq<Run>)
    ensures NewerFirst(Stamped(runs))
  {
    hide NameOf, LinksOf, Names;
    if runs != [] {
      var n := |runs| - 1;
      var names := Names(LinksOf(runs[n]));
      StampedNewerFirst(runs[..n]);
      SurvivingOrdered(Stamped(runs[..n]), names);
      forall x | x in Surviving(Stamped(runs[..n]), names) ensures x.run < n {
        StampedIffLasts(runs[..n], x);
      }
    }
  }

  /** Links in order of commit count, newest first: what the script promises. */
  ghost predicate ByCommits(runs: seq<Run>, stamps: seq<Stamp>)
    requires forall x | x in stamps :: x.run < |runs|
  {
    forall i, j | 0 <= i < j < |stamps| :: runs[stamps[i].run].commits >= runs[stamps[j].run].commits
  }

  /** Some link of run `k` is still in the index. */
  ghost predicate Present(runs: seq<Run>, k: nat) {
    exists l :: Lasts(runs, k, l)
  }

  /** The present runs were made in order of commit count. */
  ghost predicate MadeInOrder(runs: seq<Run>) {
    forall i, j | 0 <= i < j < |runs| && Present(runs, i) && Present(runs, j) :: runs[i].commits <= runs[j].commits
  }

  lemma StampsArePresent(runs: seq<Run>)
    ensures forall x | x in Stamped(runs) :: x.run < |runs| && x.link in LinksOf(runs[x.run]) && Present(runs, x.run)
  {
    hide Stamped, LinksOf;
    forall x | x in Stamped(runs)
      ensures x.run < |runs| && x.link in LinksOf(runs[x.run]) && Present(runs, x.run)
    {
      StampedIffLasts(runs, x);
      assert Lasts(runs, x.run, x.link);
    }
  }

  lemma PresentIsStamped(runs: seq<Run>, k: nat) returns (a: nat)
    requires Present(runs, k)
    ensures a < |Stamped(runs)| && Stamped(runs)[a].run == k
  {
    hide Stamped, Lasts;
    var l :| Lasts(runs, k, l);
    StampedIffLasts(runs, Stamp(l, k));
    var s := Stamped(runs);
    assert Stamp(l, k) in s;
    a :| 0 <= a < |s| && s[a] == Stamp(l, k);
  }

  lemma ListedThenMade(runs: seq<Run>, i: nat, j: nat)
    requires (forall x | x in Stamped(runs) :: x.run < |runs|) && ByCommits(runs, Stamped(runs))
    requires i < j < |runs| && Present(runs, i) && Present(runs, j)
    ensures runs[i].commits <= runs[j].commits
  {
    hide *;
    StampedNewerFirst(runs);
    var a := PresentIsStamped(runs, i);
    var b := PresentIsStamped(runs, j);
    TwoStamps(runs, Stamped(runs), a, b);
  }

  lemma TwoStamps(runs: seq<Run>, s: seq<Stamp>, a: nat, b: nat)
    requires (forall x | x in s :: x.run < |runs|) && ByCommits(runs, s) && NewerFirst(s)
    requires a < |s| && b < |s| && s[a].run < s[b].run
    ensures runs[s[a].run].commits <= runs[s[b].run].commits
  {
  }

  lemma MadeThenListed(runs: seq<Run>)
    requires (forall x | x in Stamped(runs) :: x.run < |runs| && Present(runs, x.run)) && MadeInOrder(runs)
    ensures ByCommits(runs, Stamped(runs))
  {
    hide Stamped, Present;
    StampedNewerFirst(runs);
    var s := Stamped(runs);
    forall i, j | 0 <= i < j < |s| ensures runs[s[i].run].commits >= runs[s[j].run].commits {
      assert s[i] in s && s[j] in s;
    }
  }

  /** After every history of runs, the file lists its links by commit count exactly when the runs that still have
      links in it were made in order of commit count. */
  lemma ByCommitsIff(runs: seq<Run>)
    requires forall i | 0 <= i < |runs| :: GoodRun(runs[i])
    ensures LinksIn(Stamped(runs)) == Existing(History(runs))
    ensures forall x | x in Stamped(runs) :: x.run < |runs| && x.link in LinksOf(runs[x.run])
    ensures ByCommits(runs, Stamped(runs)) <==> MadeInOrder(runs)
  {
    hide LinksIn, LinksOf, Existing, History, Index, GoodRun, Stamped, Present, ByCommits;
    HistoryIsIndex(runs);
    StampedIsIndex(runs);
    StampsArePresent(runs);
    if ByCommits(runs, Stamped(runs)) {
      forall i, j | 0 <= i < j < |runs| && Present(runs, i) && Present(runs, j)
        ensures runs[i].commits <= runs[j].commits
      {
        ListedThenMade(runs, i, j);
      }
    } else if MadeInOrder(runs) {
      MadeThenListed(runs);
    }
  }

  /** No wheel name is published twice, and every run publishes one. */
  ghost predicate NewNames(runs: seq<Run>) {
    && (forall i | 0 <= i < |runs| :: runs[i].wheels != [])
    && (forall i, j | 0 <= i < j < |runs| :: Names(LinksOf(runs[i])) !! Names(LinksOf(runs[j])))
  }

  lemma AllPresent(runs: seq<Run>, k: nat)
    requires NewNames(runs) && k < |runs|
    ensures Present(runs, k)
  {
    var l := LinksOf(runs[k])[0];
    hide NameOf, LinksOf;
    forall j | k < j < |runs| ensures !Replaced(l, Names(LinksOf(runs[j]))) {
      if NameOf(l).Some? {
        assert NameOf(l).value in Names(LinksOf(runs[k]));
      }
    }
    assert l in LinksOf(runs[k]);
    assert Lasts(runs, k, l);
  }

  /** Nightly names carry their version and are new each time; then the promised order holds exactly when the
      runs are made in order of commit count. */
  lemma NightliesByCommitsIff(runs: seq<Run>)
    requires NewNames(runs) && forall i | 0 <= i < |runs| :: GoodRun(runs[i])
    ensures forall x | x in Stamped(runs) :: x.run < |runs|
    ensures ByCommits(runs, Stamped(runs)) <==>
            forall i, j | 0 <= i < j < |runs| :: runs[i].commits <= runs[j].commits
  {
    hide LinksIn, LinksOf, Names, Existing, History, GoodRun, Stamped, Present, ByCommits, NewNames;
    ByCommitsIff(runs);
    forall k: nat | k < |runs| ensures Present(runs, k) {
      AllPresent(runs, k);
    }
  }

  // ----- A history out of order ------------------------------------------------------------------

  function WheelNamed(c: char): string { [c] + ".whl" }

  function Nightly(c: char, commits: nat): (run: Run)
    ensures run.commits == commits && run.wheels != []
  {
    Run("cu129", "nightly", commits, [Wheel(WheelNamed(c), "0")])
  }

  lemma NightlyIsGood(c: char, commits: nat)
    requires c != '<' && c != '>' && c != '\n'
    ensures GoodRun(Nightly(c, commits)) && Names(LinksOf(Nightly(c, commits))) == {WheelNamed(c)}
  {
    assert WheelNamed(c)[1..] == ".whl";
    assert GoodRun(Nightly(c, commits));
    hide GoodRun, WheelNamed;
    OneName(Nightly(c, commits));
  }

  lemma OneName(run: Run)
    requires GoodRun(run) && |run.wheels| == 1
    ensures Names(LinksOf(run)) == {run.wheels[0].name}
  {
    hide NameOf, LinkText, Url, GoodLinks, GoodRun;
    RunLinksAreGood(run);
    var links := LinksOf(run);
    assert NameOf(links[0]) == Some(run.wheels[0].name);
  }

  /** Building an older commit after a newer one puts the older one first. */
  lemma OlderCommitListedFirst()
    ensures var runs := [Nightly('b', 2), Nightly('a', 1)];
            && (forall i | 0 <= i < |runs| :: GoodRun(runs[i]))
            && LinksIn(Stamped(runs)) == Existing(History(runs))
            && (forall x | x in Stamped(runs) :: x.run < |runs|)
            && !ByCommits(runs, Stamped(runs))
  {
    assert WheelNamed('a')[0] != WheelNamed('b')[0];
    hide *;
    NightlyIsGood('a', 1);
    NightlyIsGood('b', 2);
    OutOfOrder(Nightly('b', 2), Nightly('a', 1));
  }

  lemma OutOfOrder(b: Run, a: Run)
    requires GoodRun(a) && GoodRun(b) && a.wheels != [] && b.wheels != [] && a.commits < b.commits
    requires Names(LinksOf(b)) !! Names(LinksOf(a))
    ensures var runs := [b, a];
            && LinksIn(Stamped(runs)) == Existing(History(runs))
            && (forall x | x in Stamped(runs) :: x.run < |runs|)
            && !ByCommits(runs, Stamped(runs))
  {
    var runs := [b, a];
    assert runs[0] == b && runs[1] == a;
    assert NewNames(runs);
    hide *;
    ByCommitsIff(runs);
    NightliesByCommitsIff(runs);
  }
}
