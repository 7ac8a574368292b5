/**
 Journal titles grouped into issues. Each title goes to the first cluster whose canonical title
 (the one that opened it) shares at least half of their words, or opens a cluster of its own.

 How titles are split into words, and which titles are not issues, is a parameter: every statement
 here holds for any choice.
 */
module Clusters {
  import opened Collections

  datatype Entry = Entry(title: string, date: string)

  /** How a title is read: its words, whether it holds a stop title, whether it is a section header or status. */
  datatype Reading = Reading(words: string -> set<string>, stop: string -> bool, nonIssue: string -> bool)

  /** What `get_recurring_issues` keeps of a cluster. */
  datatype Cluster = Cluster(canonical: string, words: set<string>, dates: set<string>, titles: seq<string>)

  /** `get_issue_lifecycle` keeps the entries too. */
  datatype Tracked = Tracked(cluster: Cluster, entries: seq<Entry>)

  // ---- similarity ----

  /** A quotient of two counts; comparing it with one half is exact in floating point too. */
  function Jaccard(a: set<string>, b: set<string>): real {
    if a == {} || b == {} then 0.0 else |a * b| as real / |a + b| as real
  }

  predicate Similar(a: set<string>, b: set<string>) {
    Jaccard(a, b) >= 0.5
  }

  lemma UnionSize(a: set<string>, b: set<string>)
    ensures |a + b| + |a * b| == |a| + |b|
    ensures |a * b| <= |a| <= |a + b| && |b| <= |a + b|
  {
    assert a == (a - b) + (a * b);
    assert a + b == (a - b) + b;
  }

  /** Similar titles share at least a third of all their words, counted with repetition. */
  lemma SimilarIff(a: set<string>, b: set<string>)
    ensures Similar(a, b) <==> a != {} && b != {} && 3 * |a * b| >= |a| + |b|
    ensures Similar(a, b) == Similar(b, a)
    ensures Similar(a, a) == (a != {})
  {
    UnionSize(a, b);
    UnionSize(a, a);
    assert a * b == b * a && a + b == b + a && a * a == a && a + a == a;
    if a != {} && b != {} {
      Half(|a * b|, |a + b|);
    }
    if a != {} {
      Half(|a|, |a|);
    }
  }

  lemma Half(x: nat, y: nat)
    requires y > 0
    ensures x as real / y as real >= 0.5 <==> 2 * x >= y
  {
    var q := x as real / y as real;
    assert q * y as real == x as real;
  }

  // ---- leaders, said without clusters ----

  /** A title that opens a cluster: it is similar to no earlier one that does. */
  predicate Leads(ws: seq<set<string>>, i: nat)
    requires i < |ws|
    decreases i
  {
    forall j | 0 <= j < i :: Leads(ws, j) ==> !Similar(ws[i], ws[j])
  }

  function FirstHome(ws: seq<set<string>>, i: nat, start: nat): (j: nat)
    requires start <= i < |ws|
    ensures start <= j <= i
    ensures j < i ==> Leads(ws, j) && Similar(ws[i], ws[j])
    ensures forall k :: start <= k < j ==> !(Leads(ws, k) && Similar(ws[i], ws[k]))
    decreases i - start
  {
    if start == i || (Leads(ws, start) && Similar(ws[i], ws[start])) then start else FirstHome(ws, i, start + 1)
  }

  /** The leader a title goes to. */
  function Home(ws: seq<set<string>>, i: nat): nat
    requires i < |ws|
  {
    FirstHome(ws, i, 0)
  }

  /** A grouping by leader, each title going to the first leader it is similar to. */
  ghost predicate FirstMatches(ws: seq<set<string>>, home: seq<nat>) {
    && |home| == |ws|
    && (forall i :: 0 <= i < |home| ==> home[i] <= i)
    && (forall i :: 0 <= i < |home| ==> home[home[i]] == home[i])
    && (forall i :: 0 <= i < |home| ==> home[i] == i || Similar(ws[i], ws[home[i]]))
    && (forall i, j :: 0 <= i < |home| && 0 <= j < home[i] && home[j] == j ==> !Similar(ws[i], ws[j]))
  }

  lemma HomeOfLeader(ws: seq<set<string>>, i: nat)
    requires i < |ws|
    ensures Home(ws, i) == i <==> Leads(ws, i)
    ensures Leads(ws, Home(ws, i))
  {
  }

  /** Every title goes to exactly one leader, the first one similar to it. */
  lemma HomeIsFirstMatch(ws: seq<set<string>>)
    ensures FirstMatches(ws, seq(|ws|, i requires 0 <= i < |ws| => Home(ws, i)))
  {
    var home := seq(|ws|, i requires 0 <= i < |ws| => Home(ws, i));
    forall i | 0 <= i < |ws|
      ensures home[i] <= i && home[home[i]] == home[i] && (home[i] == i || Similar(ws[i], ws[home[i]]))
    {
      HomeOfLeader(ws, i);
      HomeOfLeader(ws, home[i]);
    }
    forall i, j | 0 <= i < |ws| && 0 <= j < home[i] && home[j] == j
      ensures !Similar(ws[i], ws[j])
    {
      HomeOfLeader(ws, j);
    }
  }

  /** No other grouping does that. */
  lemma {:induction false} FirstMatchUnique(ws: seq<set<string>>, home: seq<nat>, i: nat)
    requires FirstMatches(ws, home) && i < |ws|
    ensures home[i] == Home(ws, i)
    decreases i
  {
    forall j | 0 <= j < i
      ensures home[j] == j <==> Leads(ws, j)
    {
      FirstMatchUnique(ws, home, j);
      HomeOfLeader(ws, j);
    }
    HomeOfLeader(ws, i);
    assert Home(ws, i) < i ==> home[Home(ws, i)] == Home(ws, i);
  }

  // ---- the clusters ----

  function WordsOf(q: seq<Entry>, r: Reading): (ws: seq<set<string>>)
    ensures |ws| == |q|
  {
    seq(|q|, i requires 0 <= i < |q| => r.words(q[i].title))
  }

  predicate Qualifies(e: Entry, r: Reading) {
    |r.words(e.title)| >= 2 && !r.stop(e.title) && !r.nonIssue(e.title)
  }

  function Qualifying(entries: seq<Entry>, r: Reading): seq<Entry> {
    if entries == [] then []
    else (if Qualifies(entries[0], r) then [entries[0]] else []) + Qualifying(entries[1..], r)
  }

  /** The leaders among the first n titles, in order. */
  function Leaders(ws: seq<set<string>>, n: nat): (ls: seq<nat>)
    requires n <= |ws|
    ensures forall k :: 0 <= k < |ls| ==> ls[k] < n && Leads(ws, ls[k])
    ensures forall k, m :: 0 <= k < m < |ls| ==> ls[k] < ls[m]
    ensures forall j :: 0 <= j < n && Leads(ws, j) ==> j in ls
  {
    if n == 0 then [] else Leaders(ws, n - 1) + if Leads(ws, n - 1) then [n - 1] else []
  }

  /** The entries among the first n whose titles go to leader j, in order. */
  function EntriesOf(q: seq<Entry>, r: Reading, j: nat, n: nat): seq<Entry>
    requires n <= |q|
  {
    if n == 0 then [] else EntriesOf(q, r, j, n - 1) + if Home(WordsOf(q, r), n - 1) == j then [q[n - 1]] else []
  }

  function Summary(leader: Entry, es: seq<Entry>, r: Reading): Cluster {
    Cluster(leader.title, r.words(leader.title), set e | e in es :: e.date, seq(|es|, k requires 0 <= k < |es| => es[k].title))
  }

  function ClusterOf(q: seq<Entry>, r: Reading, j: nat, n: nat): Cluster
    requires j < |q| && n <= |q|
  {
    Summary(q[j], EntriesOf(q, r, j, n), r)
  }

  function Built(q: seq<Entry>, r: Reading, n: nat): (clusters: seq<Cluster>)
    requires n <= |q|
    ensures |clusters| == |Leaders(WordsOf(q, r), n)|
  {
    var ls := Leaders(WordsOf(q, r), n);
    seq(|ls|, k requires 0 <= k < |ls| => ClusterOf(q, r, ls[k], n))
  }

  function AllClusters(entries: seq<Entry>, r: Reading): seq<Cluster> {
    var q := Qualifying(entries, r);
    Built(q, r, |q|)
  }

  function TotalTitles(clusters: seq<Cluster>): nat {
    if clusters == [] then 0 else TotalTitles(clusters[..|clusters| - 1]) + |clusters[|clusters| - 1].titles|
  }

  function With(c: Cluster, e: Entry): Cluster {
    c.(dates := c.dates + {e.date}, titles := c.titles + [e.title])
  }

  function Opened(e: Entry, r: Reading): Cluster {
    Cluster(e.title, r.words(e.title), {e.date}, [e.title])
  }

  lemma SummaryGrows(leader: Entry, es: seq<Entry>, e: Entry, r: Reading)
    ensures Summary(leader, es + [e], r) == With(Summary(leader, es, r), e)
    ensures Summary(e, [e], r) == Opened(e, r)
  {
    assert Summary(leader, es + [e], r).titles == With(Summary(leader, es, r), e).titles;
    assert Summary(leader, es + [e], r).dates == With(Summary(leader, es, r), e).dates;
  }

  lemma NextMember(q: seq<Entry>, r: Reading, j: nat, n: nat)
    requires j < |q| && n < |q|
    ensures ClusterOf(q, r, j, n + 1)
         == if Home(WordsOf(q, r), n) == j then With(ClusterOf(q, r, j, n), q[n]) else ClusterOf(q, r, j, n)
  {
    hide Summary, WordsOf, Home;
    SummaryGrows(q[j], EntriesOf(q, r, j, n), q[n], r);
    assert EntriesOf(q, r, j, n) + [] == EntriesOf(q, r, j, n);
  }

  /** A leader's entries start with its own, and all are similar to it. */
  lemma {:induction false} EntriesShape(q: seq<Entry>, r: Reading, j: nat, n: nat)
    requires j < |q| && n <= |q| && Leads(WordsOf(q, r), j)
    ensures var es, ws := EntriesOf(q, r, j, n), WordsOf(q, r);
            && (n <= j ==> es == [])
            && (n > j ==> es != [] && es[0] == q[j])
            && forall k :: 0 <= k < |es| ==> es[k] == q[j] || Similar(r.words(es[k].title), ws[j])
  {
    hide Similar;
    if n > 0 {
      EntriesShape(q, r, j, n - 1);
      HomeOfLeader(WordsOf(q, r), j);
    }
  }

  lemma HomeFirst(ws: seq<set<string>>, n: nat, k: nat)
    requires n < |ws| && k < |Leaders(ws, n)| && Similar(ws[n], ws[Leaders(ws, n)[k]])
    requires forall m :: 0 <= m < k ==> !Similar(ws[n], ws[Leaders(ws, n)[m]])
    ensures Home(ws, n) == Leaders(ws, n)[k] && Leaders(ws, n + 1) == Leaders(ws, n)
  {
    hide Similar;
    var ls := Leaders(ws, n);
    assert !Leads(ws, n);
    var h := Home(ws, n);
    assert h <= ls[k];
    var m :| 0 <= m < |ls| && ls[m] == h;
    assert m <= k;
  }

  lemma HomeNew(ws: seq<set<string>>, n: nat)
    requires n < |ws| && forall m :: 0 <= m < |Leaders(ws, n)| ==> !Similar(ws[n], ws[Leaders(ws, n)[m]])
    ensures Leads(ws, n) && Home(ws, n) == n && Leaders(ws, n + 1) == Leaders(ws, n) + [n]
  {
    hide Similar;
    var ls := Leaders(ws, n);
    forall j | 0 <= j < n && Leads(ws, j)
      ensures !Similar(ws[n], ws[j])
    {
      assert j in ls;
    }
    HomeOfLeader(ws, n);
  }

  /** A title similar to a canonical one joins the first such cluster. */
  lemma Joins(q: seq<Entry>, r: Reading, n: nat, k: nat)
    requires n < |q| && k < |Built(q, r, n)|
    requires Similar(r.words(q[n].title), Built(q, r, n)[k].words)
    requires forall m :: 0 <= m < k ==> !Similar(r.words(q[n].title), Built(q, r, n)[m].words)
    ensures Built(q, r, n + 1) == Built(q, r, n)[k := With(Built(q, r, n)[k], q[n])]
    ensures Home(WordsOf(q, r), n) == Leaders(WordsOf(q, r), n)[k]
    ensures Leaders(WordsOf(q, r), n + 1) == Leaders(WordsOf(q, r), n)
  {
    hide Similar, With, Home, Leaders, Leads, EntriesOf;
    var ws := WordsOf(q, r);
    var ls := Leaders(ws, n);
    assert forall m :: 0 <= m < |ls| ==> Built(q, r, n)[m].words == ws[ls[m]];
    HomeFirst(ws, n, k);
    forall m | 0 <= m < |ls|
      ensures ClusterOf(q, r, ls[m], n + 1) == if m == k then With(Built(q, r, n)[k], q[n]) else Built(q, r, n)[m]
    {
      NextMember(q, r, ls[m], n);
    }
  }

  /** A title similar to none opens a cluster at the end. */
  lemma Opens(q: seq<Entry>, r: Reading, n: nat)
    requires n < |q|
    requires forall m :: 0 <= m < |Built(q, r, n)| ==> !Similar(r.words(q[n].title), Built(q, r, n)[m].words)
    ensures Built(q, r, n + 1) == Built(q, r, n) + [Opened(q[n], r)]
    ensures Home(WordsOf(q, r), n) == n && EntriesOf(q, r, n, n) == []
    ensures Leaders(WordsOf(q, r), n + 1) == Leaders(WordsOf(q, r), n) + [n]
  {
    hide Similar, Home, Leaders, Leads, EntriesOf, Opened;
    var ws := WordsOf(q, r);
    var ls := Leaders(ws, n);
    assert forall m :: 0 <= m < |ls| ==> Built(q, r, n)[m].words == ws[ls[m]];
    HomeNew(ws, n);
    forall m | 0 <= m < |ls|
      ensures ClusterOf(q, r, ls[m], n + 1) == Built(q, r, n)[m]
    {
      NextMember(q, r, ls[m], n);
    }
    FirstMember(q, r, n);
  }

  lemma FirstMember(q: seq<Entry>, r: Reading, n: nat)
    requires n < |q| && Leads(WordsOf(q, r), n)
    ensures EntriesOf(q, r, n, n) == [] && ClusterOf(q, r, n, n + 1) == Opened(q[n], r)
  {
    hide Similar, Leads, Summary, Opened;
    EntriesShape(q, r, n, n);
    HomeOfLeader(WordsOf(q, r), n);
    SummaryGrows(q[n], [], q[n], r);
    assert [] + [q[n]] == [q[n]];
  }

  /** The canonical titles are pairwise dissimilar. */
  lemma CanonicalsApart(entries: seq<Entry>, r: Reading, a: nat, b: nat)
    requires a < |AllClusters(entries, r)| && b < |AllClusters(entries, r)| && a != b
    ensures Jaccard(AllClusters(entries, r)[a].words, AllClusters(entries, r)[b].words) < 0.5
  {
    var q := Qualifying(entries, r);
    var ws := WordsOf(q, r);
    var ls := Leaders(ws, |q|);
    var first, second := if a < b then ls[a] else ls[b], if a < b then ls[b] else ls[a];
    assert Leads(ws, first) && Leads(ws, second) && first < second;
    SimilarIff(ws[first], ws[second]);
  }

  /** A cluster starts with its canonical title, and the others are similar to that one. */
  lemma ClusterShape(entries: seq<Entry>, r: Reading, a: nat)
    requires a < |AllClusters(entries, r)|
    ensures var c := AllClusters(entries, r)[a];
            && c.titles != [] && c.titles[0] == c.canonical && c.words == r.words(c.canonical)
            && forall k :: 0 <= k < |c.titles| ==> Jaccard(r.words(c.titles[k]), c.words) >= 0.5
  {
    var q := Qualifying(entries, r);
    var ws := WordsOf(q, r);
    var j := Leaders(ws, |q|)[a];
    EntriesShape(q, r, j, |q|);
    QualifiesAll(entries, r, j);
    SimilarIff(ws[j], ws[j]);
  }

  lemma {:induction false} QualifiesAll(entries: seq<Entry>, r: Reading, i: nat)
    requires i < |Qualifying(entries, r)|
    ensures Qualifies(Qualifying(entries, r)[i], r)
  {
    if !Qualifies(entries[0], r) {
      QualifiesAll(entries[1..], r, i);
    } else if i > 0 {
      QualifiesAll(entries[1..], r, i - 1);
    }
  }

  lemma {:induction false} TotalAfterUpdate(clusters: seq<Cluster>, k: nat, e: Entry)
    requires k < |clusters|
    ensures TotalTitles(clusters[k := With(clusters[k], e)]) == TotalTitles(clusters) + 1
  {
    var n := |clusters| - 1;
    var after := clusters[k := With(clusters[k], e)];
    if k == n {
      assert after[..n] == clusters[..n];
    } else {
      assert after[..n] == clusters[..n][k := With(clusters[..n][k], e)];
      TotalAfterUpdate(clusters[..n], k, e);
    }
  }

  lemma NothingBuilt(q: seq<Entry>, r: Reading)
    ensures Built(q, r, 0) == [] && Tracks([], q, r, 0)
  {
  }

  lemma {:induction false} TotalBuilt(q: seq<Entry>, r: Reading, n: nat)
    requires n <= |q|
    ensures TotalTitles(Built(q, r, n)) == n
  {
    hide Similar, With, Leaders, Home, WordsOf, Built;
    if n == 0 {
      NothingBuilt(q, r);
    } else {
      TotalBuilt(q, r, n - 1);
      var before := Built(q, r, n - 1);
      var k := FirstSimilar(before, r.words(q[n - 1].title));
      if k < |before| {
        Joins(q, r, n - 1, k);
        TotalAfterUpdate(before, k, q[n - 1]);
      } else {
        Opens(q, r, n - 1);
        assert (before + [Opened(q[n - 1], r)])[..|before|] == before;
      }
    }
  }

  function FirstSimilar(clusters: seq<Cluster>, words: set<string>): (k: nat)
    ensures k <= |clusters|
    ensures k < |clusters| ==> Similar(words, clusters[k].words)
    ensures forall m :: 0 <= m < k ==> !Similar(words, clusters[m].words)
  {
    if clusters == [] || Similar(words, clusters[0].words) then 0
    else
      assert forall m :: 0 < m < |clusters| ==> clusters[m] == clusters[1..][m - 1];
      1 + FirstSimilar(clusters[1..], words)
  }

  /** No qualifying entry is lost or counted twice. */
  lemma EveryTitleCounted(entries: seq<Entry>, r: Reading)
    ensures TotalTitles(AllClusters(entries, r)) == |Qualifying(entries, r)|
  {
    TotalBuilt(Qualifying(entries, r), r, |Qualifying(entries, r)|);
  }

  /** An entry that some cluster holds with its date. */
  ghost predicate InACluster(clusters: seq<Cluster>, title: string, date: string) {
    exists k :: 0 <= k < |clusters| && title in clusters[k].titles && date in clusters[k].dates
  }

  /**
   A cluster holds titles and dates of entries with two words or more, no stop title and no
   non-issue title; and each such entry is in some cluster.
   */
  ghost predicate HoldsTheIssues(clusters: seq<Cluster>, entries: seq<Entry>, r: Reading) {
    && (forall k, t :: 0 <= k < |clusters| && t in clusters[k].titles ==>
          && |r.words(t)| >= 2 && !r.stop(t) && !r.nonIssue(t)
          && exists e :: e in entries && e.title == t && e.date in clusters[k].dates)
    && (forall k, d :: 0 <= k < |clusters| && d in clusters[k].dates ==>
          exists e :: e in entries && e.date == d && e.title in clusters[k].titles)
    && (forall e :: e in entries && |r.words(e.title)| >= 2 && !r.stop(e.title) && !r.nonIssue(e.title) ==>
          InACluster(clusters, e.title, e.date))
  }

  lemma {:induction false} QualifyingAre(entries: seq<Entry>, r: Reading, e: Entry)
    ensures e in Qualifying(entries, r) <==>
              e in entries && |r.words(e.title)| >= 2 && !r.stop(e.title) && !r.nonIssue(e.title)
  {
    if entries != [] {
      QualifyingAre(entries[1..], r, e);
    }
  }

  lemma {:induction false} EntriesFrom(q: seq<Entry>, r: Reading, j: nat, n: nat, e: Entry)
    requires n <= |q| && e in EntriesOf(q, r, j, n)
    ensures e in q
  {
    if n > 0 && e in EntriesOf(q, r, j, n - 1) {
      EntriesFrom(q, r, j, n - 1, e);
    }
  }

  lemma {:induction false} EntryAtHome(q: seq<Entry>, r: Reading, i: nat, n: nat)
    requires i < n <= |q|
    ensures q[i] in EntriesOf(q, r, Home(WordsOf(q, r), i), n)
  {
    if i < n - 1 {
      EntryAtHome(q, r, i, n - 1);
    }
  }

  lemma InSummary(leader: Entry, es: seq<Entry>, r: Reading)
    ensures forall e :: e in es ==> e.title in Summary(leader, es, r).titles && e.date in Summary(leader, es, r).dates
    ensures forall t :: t in Summary(leader, es, r).titles ==> exists e :: e in es && e.title == t
    ensures forall d :: d in Summary(leader, es, r).dates ==> exists e :: e in es && e.date == d
  {
    var s := Summary(leader, es, r);
    forall e | e in es ensures e.title in s.titles {
      var k :| 0 <= k < |es| && es[k] == e;
      assert s.titles[k] == e.title;
    }
    forall t | t in s.titles ensures exists e :: e in es && e.title == t {
      var k :| 0 <= k < |es| && s.titles[k] == t;
      assert es[k] in es;
    }
  }

  lemma IssuesGrouped(entries: seq<Entry>, r: Reading)
    ensures HoldsTheIssues(AllClusters(entries, r), entries, r)
  {
    hide HoldsTheIssues, FromEntries, InACluster, Qualifying, Leaders, WordsOf, ClusterOf;
    var q, clusters := Qualifying(entries, r), AllClusters(entries, r);
    forall e ensures e in q <==> e in entries && |r.words(e.title)| >= 2 && !r.stop(e.title) && !r.nonIssue(e.title) {
      QualifyingAre(entries, r, e);
    }
    forall k | 0 <= k < |clusters| ensures FromEntries(clusters[k], q) {
      ClusterFrom(q, r, Leaders(WordsOf(q, r), |q|)[k]);
    }
    forall i | 0 <= i < |q| ensures InACluster(clusters, q[i].title, q[i].date) {
      EntryInCluster(q, r, i);
    }
    hide Built;
    IssuesHeld(clusters, q, entries, r);
  }

  lemma IssuesHeld(clusters: seq<Cluster>, q: seq<Entry>, entries: seq<Entry>, r: Reading)
    requires forall e :: e in q <==> e in entries && |r.words(e.title)| >= 2 && !r.stop(e.title) && !r.nonIssue(e.title)
    requires forall k :: 0 <= k < |clusters| ==> FromEntries(clusters[k], q)
    requires forall i :: 0 <= i < |q| ==> InACluster(clusters, q[i].title, q[i].date)
    ensures HoldsTheIssues(clusters, entries, r)
  {
    hide InACluster;
  }

  /** Every title and every date of the cluster is that of an entry whose date and title it also holds. */
  ghost predicate FromEntries(c: Cluster, q: seq<Entry>) {
    && (forall t :: t in c.titles ==> exists e :: e in q && e.title == t && e.date in c.dates)
    && (forall d :: d in c.dates ==> exists e :: e in q && e.date == d && e.title in c.titles)
  }

  lemma ClusterFrom(q: seq<Entry>, r: Reading, j: nat)
    requires j < |q|
    ensures FromEntries(ClusterOf(q, r, j, |q|), q)
  {
    hide Summary, EntriesOf;
    var es := EntriesOf(q, r, j, |q|);
    InSummary(q[j], es, r);
    forall e | e in es ensures e in q {
      EntriesFrom(q, r, j, |q|, e);
    }
  }

  lemma EntryInCluster(q: seq<Entry>, r: Reading, i: nat)
    requires i < |q|
    ensures InACluster(Built(q, r, |q|), q[i].title, q[i].date)
  {
    hide Summary, EntriesOf, Home, WordsOf, Leads;
    var ls, h := Leaders(WordsOf(q, r), |q|), Home(WordsOf(q, r), i);
    HomeOfLeader(WordsOf(q, r), i);
    HomeIsEarlier(WordsOf(q, r), i);
    var k :| 0 <= k < |ls| && ls[k] == h;
    EntryAtHome(q, r, i, |q|);
    InSummary(q[h], EntriesOf(q, r, h, |q|), r);
    assert Built(q, r, |q|)[k] == ClusterOf(q, r, h, |q|);
  }

  lemma HomeIsEarlier(ws: seq<set<string>>, i: nat)
    requires i < |ws|
    ensures Home(ws, i) <= i
  {
  }

  lemma LeadsAmongThree(ws: seq<set<string>>)
    requires |ws| == 3
    ensures Leads(ws, 0) && Leads(ws, 1) == !Similar(ws[1], ws[0])
    ensures Leads(ws, 2) == (!Similar(ws[2], ws[0]) && (Leads(ws, 1) ==> !Similar(ws[2], ws[1])))
  {
    hide Similar;
    assert Leads(ws, 0);
    assert Leads(ws, 1) == !Similar(ws[1], ws[0]);
  }

  lemma LeadersAmongThree(ws: seq<set<string>>)
    requires |ws| == 3 && Leads(ws, 0)
    ensures Leaders(ws, 3) == [0] + (if Leads(ws, 1) then [1] else []) + (if Leads(ws, 2) then [2] else [])
  {
    hide Leads;
    assert Leaders(ws, 1) == [0];
    assert Leaders(ws, 2) == Leaders(ws, 1) + if Leads(ws, 1) then [1] else [];
  }

  /** The clusters depend on the order of the titles: a title between two others ties them together only if it comes first. */
  lemma OrderMatters(a: set<string>, b: set<string>, c: set<string>)
    requires Similar(a, b) && Similar(b, c) && !Similar(a, c)
    ensures Leaders([a, b, c], 3) == [0, 2] && Leaders([b, a, c], 3) == [0]
  {
    SimilarIff(a, b);
    SimilarIff(b, c);
    SimilarIff(a, c);
    hide Similar, Leads, Leaders;
    LeadsAmongThree([a, b, c]);
    LeadersAmongThree([a, b, c]);
    LeadsAmongThree([b, a, c]);
    LeadersAmongThree([b, a, c]);
  }

  /** There are such titles. */
  lemma SimilarityNotTransitive()
    ensures var a, b, c := {"disk", "full"}, {"disk", "full", "node", "slow"}, {"node", "slow"};
            Similar(a, b) && Similar(b, c) && !Similar(a, c)
  {
    var a, b, c := {"disk", "full"}, {"disk", "full", "node", "slow"}, {"node", "slow"};
    assert "disk"[0] != "full"[0] && "node"[0] != "slow"[0] && "disk"[0] != "node"[0] && "disk"[0] != "slow"[0];
    assert "full"[0] != "node"[0] && "full"[0] != "slow"[0];
    assert |a| == 2 && |c| == 2 && |b| == 4;
    assert a * b == a && b * c == c && a * c == {};
    SimilarIff(a, b);
    SimilarIff(b, c);
    SimilarIff(a, c);
  }

  // ---- when the order of the titles does not matter ----

  /** Some order of the titles 0 to n - 1. */
  ghost predicate IsOrder(order: seq<nat>, n: nat) {
    NoDup(order) && forall x: nat :: x in order <==> x < n
  }

  ghost function Reordered(ws: seq<set<string>>, order: seq<nat>): (r: seq<set<string>>)
    requires IsOrder(order, |ws|)
    ensures |r| == |order|
  {
    assert forall i :: 0 <= i < |order| ==> order[i] in order;
    seq(|order|, i requires 0 <= i < |order| => ws[order[i]])
  }

  ghost predicate Together(ws: seq<set<string>>, i: nat, j: nat) {
    i < |ws| && j < |ws| && Home(ws, i) == Home(ws, j)
  }

  /** Title x is at place i and title y at place j of an order that puts them in one cluster. */
  ghost predicate Grouped(ws: seq<set<string>>, order: seq<nat>, x: nat, y: nat)
    requires IsOrder(order, |ws|)
  {
    exists i: nat, j: nat :: i < |order| && j < |order| && order[i] == x && order[j] == y && Together(Reordered(ws, order), i, j)
  }

  ghost predicate OrderFree(ws: seq<set<string>>) {
    forall one, other, x: nat, y: nat :: IsOrder(one, |ws|) && IsOrder(other, |ws|) && x < |ws| && y < |ws| ==>
      (Grouped(ws, one, x, y) <==> Grouped(ws, other, x, y))
  }

  ghost predicate Transitive(ws: seq<set<string>>) {
    forall i, j, k :: 0 <= i < |ws| && 0 <= j < |ws| && 0 <= k < |ws| && Similar(ws[i], ws[j]) && Similar(ws[j], ws[k]) ==>
      Similar(ws[i], ws[k])
  }

  /** The same title has one place in an order. */
  lemma GroupedAt(ws: seq<set<string>>, order: seq<nat>, i: nat, j: nat)
    requires IsOrder(order, |ws|) && i < |order| && j < |order|
    ensures Grouped(ws, order, order[i], order[j]) <==> Together(Reordered(ws, order), i, j)
  {
  }

  /** When similarity is transitive, being in one cluster is being similar. */
  lemma TogetherIsSimilar(ws: seq<set<string>>, i: nat, j: nat)
    requires Transitive(ws) && (forall k :: 0 <= k < |ws| ==> ws[k] != {}) && i < |ws| && j < |ws|
    ensures Together(ws, i, j) <==> Similar(ws[i], ws[j])
  {
    var h, g := Home(ws, i), Home(ws, j);
    HomeOfLeader(ws, i);
    HomeOfLeader(ws, j);
    HomeSimilar(ws, i);
    HomeSimilar(ws, j);
    if Similar(ws[i], ws[j]) {
      assert Similar(ws[h], ws[j]);
      assert Similar(ws[h], ws[g]);
      SimilarIff(ws[h], ws[g]);
    }
  }

  lemma HomeSimilar(ws: seq<set<string>>, i: nat)
    requires i < |ws| && ws[i] != {}
    ensures Similar(ws[i], ws[Home(ws, i)]) && Similar(ws[Home(ws, i)], ws[i])
  {
    SimilarIff(ws[i], ws[Home(ws, i)]);
    SimilarIff(ws[i], ws[i]);
  }

  lemma TransitiveReordered(ws: seq<set<string>>, order: seq<nat>, x: nat, y: nat)
    requires IsOrder(order, |ws|) && Transitive(ws) && (forall k :: 0 <= k < |ws| ==> ws[k] != {}) && x < |ws| && y < |ws|
    ensures Grouped(ws, order, x, y) <==> Similar(ws[x], ws[y])
  {
    hide Similar;
    var r := Reordered(ws, order);
    assert x in order && y in order;
    var i :| 0 <= i < |order| && order[i] == x;
    var j :| 0 <= j < |order| && order[j] == y;
    GroupedAt(ws, order, i, j);
    assert forall k :: 0 <= k < |r| ==> order[k] in order;
    assert Transitive(r);
    TogetherIsSimilar(r, i, j);
  }

  /** The titles below n other than three. */
  ghost function Others(n: nat, a: nat, b: nat, c: nat): (r: seq<nat>)
    ensures NoDup(r) && forall x: nat :: x in r <==> x < n && x != a && x != b && x != c
  {
    if n == 0 then [] else
      var before := Others(n - 1, a, b, c);
      if n - 1 == a || n - 1 == b || n - 1 == c then before
      else
        NoDupAppend(before, n - 1);
        before + [n - 1]
  }

  lemma ThreeFirst(n: nat, a: nat, b: nat, c: nat)
    requires a < n && b < n && c < n && a != b && b != c && a != c
    ensures IsOrder([a, b, c] + Others(n, a, b, c), n)
  {
    var rest := Others(n, a, b, c);
    DisjointConcat([a, b, c], rest);
  }

  /** Of three such titles the outer two end up together or apart, as the middle one comes first or last. */
  lemma OrderDecides(ws: seq<set<string>>, a: nat, b: nat, c: nat)
    requires a < |ws| && b < |ws| && c < |ws| && forall k :: 0 <= k < |ws| ==> ws[k] != {}
    requires Similar(ws[a], ws[b]) && Similar(ws[b], ws[c]) && !Similar(ws[a], ws[c])
    ensures !OrderFree(ws)
  {
    var n := |ws|;
    SimilarIff(ws[a], ws[b]);
    SimilarIff(ws[b], ws[c]);
    SimilarIff(ws[a], ws[c]);
    hide Similar;
    var together, apart := [b, a, c] + Others(n, b, a, c), [a, c, b] + Others(n, a, c, b);
    ThreeFirst(n, b, a, c);
    ThreeFirst(n, a, c, b);
    var r, q := Reordered(ws, together), Reordered(ws, apart);
    assert r[0] == ws[b] && r[1] == ws[a] && r[2] == ws[c] && q[0] == ws[a] && q[1] == ws[c];
    assert Leads(r, 0) && Home(r, 1) == 0 && Home(r, 2) == 0;
    assert Leads(q, 0) && Home(q, 0) == 0 && Home(q, 1) == 1;
    GroupedAt(ws, together, 1, 2);
    GroupedAt(ws, apart, 0, 1);
    assert Grouped(ws, together, a, c) && !Grouped(ws, apart, a, c);
  }

  /** The grouping is the same for every order of the titles exactly when similarity is transitive on them. */
  lemma OrderFreeIffTransitive(ws: seq<set<string>>)
    requires forall k :: 0 <= k < |ws| ==> ws[k] != {}
    ensures OrderFree(ws) <==> Transitive(ws)
  {
    hide Similar, Grouped;
    if Transitive(ws) {
      forall one, other, x: nat, y: nat | IsOrder(one, |ws|) && IsOrder(other, |ws|) && x < |ws| && y < |ws|
        ensures Grouped(ws, one, x, y) <==> Grouped(ws, other, x, y)
      {
        TransitiveReordered(ws, one, x, y);
        TransitiveReordered(ws, other, x, y);
      }
    } else {
      var i, j, k :| 0 <= i < |ws| && 0 <= j < |ws| && 0 <= k < |ws|
                     && Similar(ws[i], ws[j]) && Similar(ws[j], ws[k]) && !Similar(ws[i], ws[k]);
      OrderDecides(ws, i, j, k);
    }
  }

  // ---- the code ----

  /** Before entry i, n of the qualifying entries have been seen. */
  ghost predicate SeenBefore(entries: seq<Entry>, r: Reading, i: nat, n: nat) {
    var q := Qualifying(entries, r);
    i <= |entries| && n <= |q| && q[n..] == Qualifying(entries[i..], r)
  }

  lemma NextEntry(entries: seq<Entry>, r: Reading, i: nat, n: nat)
    requires SeenBefore(entries, r, i, n)
    ensures i == |entries| ==> n == |Qualifying(entries, r)|
    ensures i < |entries| && Qualifies(entries[i], r) ==>
              && n < |Qualifying(entries, r)| && Qualifying(entries, r)[n] == entries[i] && SeenBefore(entries, r, i + 1, n + 1)
    ensures i < |entries| && !Qualifies(entries[i], r) ==> SeenBefore(entries, r, i + 1, n)
  {
    var q := Qualifying(entries, r);
    if i < |entries| {
      assert entries[i..][1..] == entries[i + 1..];
      if Qualifies(entries[i], r) {
        assert q[n..][1..] == q[n + 1..];
      }
    }
  }

  lemma NoneSeen(entries: seq<Entry>, r: Reading)
    ensures SeenBefore(entries, r, 0, 0)
  {
    assert entries[0..] == entries;
  }

  method RecurringClusters(entries: seq<Entry>, r: Reading) returns (clusters: seq<Cluster>)
    ensures clusters == AllClusters(entries, r)
    ensures HoldsTheIssues(clusters, entries, r)
  {
    hide HoldsTheIssues;
    IssuesGrouped(entries, r);
    hide Leaders, Leads, Home, Built, WordsOf, EntriesOf, Similar, Tracks, ClusterOf, Qualifying, SeenBefore;
    NothingBuilt(Qualifying(entries, r), r);
    ghost var q := Qualifying(entries, r);
    ghost var n := 0;
    clusters := [];
    var i := 0;
    NoneSeen(entries, r);
    while i < |entries|
      invariant 0 <= i <= |entries| && n <= |q| && SeenBefore(entries, r, i, n)
      invariant clusters == Built(q, r, n)
    {
      var e := entries[i];
      NextEntry(entries, r, i, n);
      i := i + 1;
      var ws := r.words(e.title);
      if |ws| < 2 || r.stop(e.title) {
        continue;
      }
      if r.nonIssue(e.title) {
        continue;
      }
      var k := 0;
      while k < |clusters| && !Similar(ws, clusters[k].words)
        invariant 0 <= k <= |clusters|
        invariant forall m :: 0 <= m < k ==> !Similar(ws, clusters[m].words)
      {
        k := k + 1;
      }
      if k < |clusters| {
        Joins(q, r, n, k);
        clusters := clusters[k := clusters[k].(dates := clusters[k].dates + {e.date}, titles := clusters[k].titles + [e.title])];
      } else {
        Opens(q, r, n);
        clusters := clusters + [Cluster(e.title, ws, {e.date}, [e.title])];
      }
      n := n + 1;
    }
    NextEntry(entries, r, i, n);
  }

  ghost predicate Tracks(tracked: seq<Tracked>, q: seq<Entry>, r: Reading, n: nat)
    requires n <= |q|
  {
    var ws := WordsOf(q, r);
    var ls := Leaders(ws, n);
    && |tracked| == |ls|
    && forall k :: 0 <= k < |ls| ==>
         tracked[k].cluster == Built(q, r, n)[k] && tracked[k].entries == EntriesOf(q, r, ls[k], n)
  }

  /** The same clusters, each with its entries. */
  method LifecycleClusters(entries: seq<Entry>, r: Reading) returns (tracked: seq<Tracked>)
    ensures Tracks(tracked, Qualifying(entries, r), r, |Qualifying(entries, r)|)
  {
    hide Leaders, Leads, Home, Built, WordsOf, EntriesOf, Similar, Tracks, ClusterOf, Qualifying, SeenBefore;
    NothingBuilt(Qualifying(entries, r), r);
    ghost var q := Qualifying(entries, r);
    ghost var n := 0;
    tracked := [];
    var i := 0;
    NoneSeen(entries, r);
    while i < |entries|
      invariant 0 <= i <= |entries| && n <= |q| && SeenBefore(entries, r, i, n)
      invariant Tracks(tracked, q, r, n)
    {
      var e := entries[i];
      NextEntry(entries, r, i, n);
      i := i + 1;
      var ws := r.words(e.title);
      if |ws| < 2 {
        continue;
      }
      if r.nonIssue(e.title) {
        continue;
      }
      if r.stop(e.title) {
        continue;
      }
      var k := 0;
      while k < |tracked| && !Similar(ws, tracked[k].cluster.words)
        invariant 0 <= k <= |tracked|
        invariant forall m :: 0 <= m < k ==> !Similar(ws, tracked[m].cluster.words)
      {
        k := k + 1;
      }
      if k < |tracked| {
        var c := tracked[k].cluster;
        TrackJoin(tracked, q, r, n, k);
        tracked := tracked[k := Tracked(c.(dates := c.dates + {e.date}, titles := c.titles + [e.title]), tracked[k].entries + [e])];
      } else {
        TrackOpen(tracked, q, r, n);
        tracked := tracked + [Tracked(Cluster(e.title, ws, {e.date}, [e.title]), [e])];
      }
      n := n + 1;
    }
    NextEntry(entries, r, i, n);
  }

  lemma TrackJoin(tracked: seq<Tracked>, q: seq<Entry>, r: Reading, n: nat, k: nat)
    requires n < |q| && Tracks(tracked, q, r, n) && k < |tracked|
    requires Similar(r.words(q[n].title), tracked[k].cluster.words)
    requires forall m :: 0 <= m < k ==> !Similar(r.words(q[n].title), tracked[m].cluster.words)
    ensures Tracks(tracked[k := Tracked(With(tracked[k].cluster, q[n]), tracked[k].entries + [q[n]])], q, r, n + 1)
  {
    hide Similar, Home, Leaders, Leads, With, WordsOf, Built;
    Joins(q, r, n, k);
    var ls := Leaders(WordsOf(q, r), n);
    forall m | 0 <= m < |ls|
      ensures EntriesOf(q, r, ls[m], n + 1) == EntriesOf(q, r, ls[m], n) + if m == k then [q[n]] else []
    {
    }
  }

  lemma TrackOpen(tracked: seq<Tracked>, q: seq<Entry>, r: Reading, n: nat)
    requires n < |q| && Tracks(tracked, q, r, n)
    requires forall m :: 0 <= m < |tracked| ==> !Similar(r.words(q[n].title), tracked[m].cluster.words)
    ensures Tracks(tracked + [Tracked(Opened(q[n], r), [q[n]])], q, r, n + 1)
  {
    hide Similar, Home, Leaders, Leads, Opened, WordsOf, Built;
    Opens(q, r, n);
    var ls := Leaders(WordsOf(q, r), n);
    forall m | 0 <= m < |ls|
      ensures EntriesOf(q, r, ls[m], n + 1) == EntriesOf(q, r, ls[m], n)
    {
    }
    assert EntriesOf(q, r, n, n + 1) == [q[n]];
  }

  /** Both endpoints build the same clusters, and a tracked cluster's titles and dates are those of its entries. */
  method SameClusters(entries: seq<Entry>, r: Reading) returns (clusters: seq<Cluster>, tracked: seq<Tracked>)
    ensures |clusters| == |tracked|
    ensures forall k :: 0 <= k < |clusters| ==> clusters[k] == tracked[k].cluster
    ensures forall k :: 0 <= k < |clusters| ==>
              && |tracked[k].entries| == |clusters[k].titles|
              && (forall m :: 0 <= m < |tracked[k].entries| ==> tracked[k].entries[m].title == clusters[k].titles[m])
              && clusters[k].dates == set e | e in tracked[k].entries :: e.date
  {
    clusters := RecurringClusters(entries, r);
    tracked := LifecycleClusters(entries, r);
  }
}
