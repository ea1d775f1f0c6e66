/** What the links of the nightly wheel index point to (scripts/update_nightly_whl_index.py). */
module WheelLinks {
  import opened Common
  import opened WheelIndex

  /** Run `k` publishes a wheel of this name. */
  predicate Publishes(runs: seq<Run>, k: nat, n: string) {
    k < |runs| && exists i :: 0 <= i < |runs[k].wheels| && runs[k].wheels[i].name == n
  }

  lemma {:induction false} LinkInIs(run: Run, k: nat, n: string)
    requires k <= |run.wheels|
    ensures LinkIn(run, run.wheels[..k], n).Some? <==> exists i :: 0 <= i < k && run.wheels[i].name == n
    ensures LinkIn(run, run.wheels[..k], n).Some? ==>
              exists i :: 0 <= i < k && run.wheels[i].name == n
                          && LinkIn(run, run.wheels[..k], n).value == LinkText(Url(run.tag, run.wheels[i]), n)
  {
    hide LinkText, Url;
    if k > 0 {
      LinkInIs(run, k - 1, n);
      assert run.wheels[..k][..k - 1] == run.wheels[..k - 1] && run.wheels[..k][k - 1] == run.wheels[k - 1];
    }
  }

  /** Link `l` is what run `k` writes for the wheel named `n`. */
  ghost predicate WrittenBy(runs: seq<Run>, k: nat, n: string, l: string) {
    && k < |runs|
    && exists i :: 0 <= i < |runs[k].wheels| && runs[k].wheels[i].name == n && l == LinkText(Url(runs[k].tag, runs[k].wheels[i]), n)
  }

  lemma LastLink(runs: seq<Run>, n: string)
    requires runs != []
    ensures var m := |runs| - 1;
            var l := LinkIn(runs[m], runs[m].wheels, n);
            && (l.Some? <==> Publishes(runs, m, n)) && (l.Some? ==> WrittenBy(runs, m, n, l.value))
            && LatestLink(runs, n) == if l.Some? then l else LatestLink(runs[..m], n)
  {
    hide LinkText, Url, LinkIn;
    var last := runs[|runs| - 1];
    LinkInIs(last, |last.wheels|, n);
    assert last.wheels[..|last.wheels|] == last.wheels;
  }

  /** The link kept for a name is that of the last run that published it. */
  lemma {:induction false} LatestLinkIs(runs: seq<Run>, n: string, k: nat)
    requires Publishes(runs, k, n) && forall j: nat | k < j :: !Publishes(runs, j, n)
    ensures LatestLink(runs, n).Some? && WrittenBy(runs, k, n, LatestLink(runs, n).value)
    decreases |runs|
  {
    var m := |runs| - 1;
    LastLink(runs, n);
    if k < m {
      var front := runs[..m];
      assert !Publishes(runs, m, n);
      forall j: nat ensures Publishes(front, j, n) ==> Publishes(runs, j, n) {
        assert j < m ==> front[j] == runs[j];
      }
      assert front[k] == runs[k];
      LatestLinkIs(front, n, k);
    }
  }

  /** No link is kept for a name that no run published. */
  lemma {:induction false} NoLinkUnpublished(runs: seq<Run>, n: string)
    requires forall j: nat :: !Publishes(runs, j, n)
    ensures LatestLink(runs, n).None?
  {
    if runs != [] {
      var m := |runs| - 1;
      LastLink(runs, n);
      forall j: nat ensures !Publishes(runs[..m], j, n) {
        assert !Publishes(runs, j, n);
        assert j < m ==> runs[..m][j] == runs[j];
      }
      NoLinkUnpublished(runs[..m], n);
    }
  }

  /** The target of a link: what stands between the quotation marks. */
  function Href(link: string): Option<string> {
    if StartsWith(link, "<a href=\"") then Some(link[9..IndexOf(link, '"', 9)]) else None
  }

  lemma HrefOfLink(url: string, name: string)
    requires '"' !in url
    ensures Href(LinkText(url, name)) == Some(url)
  {
    var head, tail := "<a href=\"", ">" + name + "</a><br>";
    var link := head + url + "\"" + tail;
    assert LinkText(url, name) == link;
    assert |head| == 9 && link[..9] == head;
    forall j | 9 <= j < 9 + |url| ensures link[j] != '"' { assert link[j] == url[j - 9]; }
    assert link[9 + |url|] == '"';
    FirstAt(link, '"', 9, 9 + |url|);
    assert link[9..9 + |url|] == url;
  }

  /** Where a wheel is to be found: in the release of its run, under its own name, with its digest. */
  function ReleaseUrl(tag: string, name: string, sha: string): string {
    "https://github.com" + "/sgl-project/whl" + "/releases/download" + "/" + tag + "/" + name + "#sha256=" + sha
  }

  lemma LinkPointsTo(tag: string, w: Wheel)
    requires '"' !in tag && '"' !in w.name && '"' !in w.sha
    ensures Href(LinkText(Url(tag, w), w.name)) == Some(ReleaseUrl(tag, w.name, w.sha))
  {
    var base := BaseUrl();
    assert '"' !in "https://github.com" && '"' !in "/sgl-project/whl" && '"' !in "/releases/download";
    assert '"' !in base;
    assert '"' !in "/" && '"' !in "#sha256=";
    var url := Url(tag, w);
    assert '"' !in url;
    hide Href, LinkText;
    HrefOfLink(url, w.name);
  }

  /** No quotation mark in what a run publishes. */
  ghost predicate Unquoted(run: Run) {
    '"' !in run.tag && forall i | 0 <= i < |run.wheels| :: '"' !in run.wheels[i].name && '"' !in run.wheels[i].sha
  }

  /** After any history, the file holds one link for a published name, and it leads to the wheel of the last run that
      published it. */
  lemma IndexPointsTo(runs: seq<Run>, n: string, k: nat) returns (i: nat)
    requires (forall j | 0 <= j < |runs| :: GoodRun(runs[j])) && k < |runs| && Unquoted(runs[k])
    requires Publishes(runs, k, n) && forall j: nat | k < j :: !Publishes(runs, j, n)
    ensures i < |runs[k].wheels| && runs[k].wheels[i].name == n
    ensures var links := LinksFor(Existing(History(runs)), n);
            |links| == 1 && Href(links[0]) == Some(ReleaseUrl(runs[k].tag, n, runs[k].wheels[i].sha))
  {
    LatestLinkIs(runs, n, k);
    i :| 0 <= i < |runs[k].wheels| && runs[k].wheels[i].name == n
         && LatestLink(runs, n).value == LinkText(Url(runs[k].tag, runs[k].wheels[i]), n);
    assert '"' !in runs[k].tag && '"' !in runs[k].wheels[i].name && '"' !in runs[k].wheels[i].sha;
    hide *;
    HistoryIsIndex(runs);
    LatestRunWins(runs, n);
    OneLink(LatestLink(runs, n));
    LinkPointsTo(runs[k].tag, runs[k].wheels[i]);
  }

  lemma OneLink(l: Option<string>)
    requires l.Some?
    ensures AsSeq(l) == [l.value]
  {
  }
}
