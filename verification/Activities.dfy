/** The capped activity feed: batches are deduplicated, merged newest first and cut to a maximum. */
module Activities {
  import opened Collections

  const MAX_ACTIVITIES := 500

  /** `time` is the instant of the timestamp. */
  datatype Activity = Activity(id: string, kind: string, agentId: string, time: int)

  datatype Fingerprint = Fingerprint(kind: string, agentId: string, time: int)

  function FingerprintOf(a: Activity): Fingerprint {
    Fingerprint(a.kind, a.agentId, a.time)
  }

  function SeenIds(s: seq<Activity>): set<string> {
    set a | a in s :: a.id
  }

  function SeenFingerprints(s: seq<Activity>): set<Fingerprint> {
    set a | a in s :: FingerprintOf(a)
  }

  /** Stable descending sort by time. */
  function InsertByTime(a: Activity, s: seq<Activity>): seq<Activity> {
    if s == [] || a.time >= s[0].time then [a] + s else [s[0]] + InsertByTime(a, s[1..])
  }

  function SortByTime(s: seq<Activity>): seq<Activity> {
    if s == [] then [] else InsertByTime(s[0], SortByTime(s[1..]))
  }

  function Take(s: seq<Activity>): seq<Activity> {
    if |s| <= MAX_ACTIVITIES then s else s[..MAX_ACTIVITIES]
  }

  /** The activities of a batch that neither the feed nor the batch before them has shown. */
  function NewOnes(ids: set<string>, fps: set<Fingerprint>, batch: seq<Activity>): seq<Activity>
    decreases |batch|
  {
    if batch == [] then []
    else
      var a := batch[0];
      if a.id !in ids && FingerprintOf(a) !in fps
      then [a] + NewOnes(ids + {a.id}, fps + {FingerprintOf(a)}, batch[1..])
      else NewOnes(ids, fps, batch[1..])
  }

  function Merged(feed: seq<Activity>, batch: seq<Activity>): seq<Activity> {
    var news := NewOnes(SeenIds(feed), SeenFingerprints(feed), batch);
    if news == [] then feed else Take(SortByTime(news + feed))
  }

  function Added(feed: seq<Activity>, a: Activity): seq<Activity> {
    if a.id in SeenIds(feed) || FingerprintOf(a) in SeenFingerprints(feed) then feed else Take([a] + feed)
  }

  ghost function MergedAll(feed: seq<Activity>, batches: seq<seq<Activity>>): seq<Activity>
    decreases |batches|
  {
    if batches == [] then feed else MergedAll(Merged(feed, batches[0]), batches[1..])
  }

  ghost function Delivered(batches: seq<seq<Activity>>): set<Activity> {
    set b, a | b in batches && a in b :: a
  }

  // ---- what the feed should hold ----

  ghost predicate NewestFirst(s: seq<Activity>) {
    forall i, j :: 0 <= i < j < |s| ==> s[i].time >= s[j].time
  }

  ghost function Fingerprints(s: seq<Activity>): seq<Fingerprint> {
    seq(|s|, i requires 0 <= i < |s| => FingerprintOf(s[i]))
  }

  /** An id belongs to one event; the same event may come under several ids. */
  ghost predicate Coherent(all: set<Activity>) {
    forall a, b :: a in all && b in all && a.id == b.id ==> FingerprintOf(a) == FingerprintOf(b)
  }

  /**
   The feed shows events of `all`, each once, newest first, and whatever it does not show is no
   newer than anything in a full feed.
   */
  ghost predicate IsNewest(feed: seq<Activity>, all: set<Activity>) {
    && ToSet(feed) <= all && NewestFirst(feed) && NoDup(Fingerprints(feed)) && |feed| <= MAX_ACTIVITIES
    && forall a :: a in all ==> Shown(feed, a)
  }

  ghost predicate Shown(feed: seq<Activity>, a: Activity) {
    FingerprintOf(a) in SeenFingerprints(feed) || (|feed| == MAX_ACTIVITIES && forall b :: b in feed ==> b.time >= a.time)
  }

  // ---- sorting ----

  lemma {:induction false} InsertMembers(a: Activity, s: seq<Activity>)
    ensures ToSet(InsertByTime(a, s)) == ToSet(s) + {a} && |InsertByTime(a, s)| == |s| + 1
  {
    if s == [] || a.time >= s[0].time {
      assert ToSet([a] + s) == ToSet(s) + {a};
    } else {
      InsertMembers(a, s[1..]);
      assert s == [s[0]] + s[1..];
      var t := InsertByTime(a, s[1..]);
      assert ToSet([s[0]] + t) == ToSet(t) + {s[0]};
      assert ToSet(s) == ToSet(s[1..]) + {s[0]};
    }
  }

  lemma {:induction false} InsertNewestFirst(a: Activity, s: seq<Activity>)
    requires NewestFirst(s)
    ensures NewestFirst(InsertByTime(a, s))
  {
    if s != [] && a.time < s[0].time {
      HeadNewest(s);
      InsertNewestFirst(a, s[1..]);
      InsertMembers(a, s[1..]);
      hide NewestFirst;
      var t := InsertByTime(a, s[1..]);
      forall b | b in t ensures s[0].time >= b.time {
        assert b in ToSet(t);
      }
      ConsNewestFirst(s[0], t);
    } else {
      if s != [] {
        HeadNewest(s);
      }
      ConsNewestFirst(a, s);
    }
  }

  lemma HeadNewest(s: seq<Activity>)
    requires NewestFirst(s) && s != []
    ensures NewestFirst(s[1..]) && forall b :: b in s ==> s[0].time >= b.time
    ensures forall b :: b in s[1..] ==> b in s
  {
  }

  lemma ConsNewestFirst(x: Activity, t: seq<Activity>)
    requires NewestFirst(t) && forall b :: b in t ==> x.time >= b.time
    ensures NewestFirst([x] + t)
  {
    forall i, j | 0 <= i < j < |t| + 1 ensures ([x] + t)[i].time >= ([x] + t)[j].time {
      assert ([x] + t)[j] == t[j - 1];
    }
  }

  lemma {:induction false} SortIsSorted(s: seq<Activity>)
    ensures NewestFirst(SortByTime(s)) && ToSet(SortByTime(s)) == ToSet(s) && |SortByTime(s)| == |s|
  {
    if s != [] {
      SortIsSorted(s[1..]);
      InsertNewestFirst(s[0], SortByTime(s[1..]));
      InsertMembers(s[0], SortByTime(s[1..]));
      assert s == [s[0]] + s[1..];
      assert ToSet(s) == ToSet(s[1..]) + {s[0]};
    }
  }

  /** A rearrangement of a list without repeated events repeats none. */
  lemma RearrangedDistinct(s: seq<Activity>, t: seq<Activity>)
    requires ToSet(s) == ToSet(t) && |s| == |t| && NoDup(Fingerprints(s))
    ensures NoDup(Fingerprints(t))
  {
    FingerprintSet(s);
    FingerprintSet(t);
    assert SeenFingerprints(s) == SeenFingerprints(t) by {
      assert forall a :: a in s <==> a in ToSet(s);
      assert forall a :: a in t <==> a in ToSet(t);
    }
    CardIffNoDup(Fingerprints(s));
    CardIffNoDup(Fingerprints(t));
  }

  lemma FingerprintSet(s: seq<Activity>)
    ensures ToSet(Fingerprints(s)) == SeenFingerprints(s)
  {
    forall f | f in SeenFingerprints(s) ensures f in Fingerprints(s) {
      var a :| a in s && FingerprintOf(a) == f;
      var i :| 0 <= i < |s| && s[i] == a;
      assert Fingerprints(s)[i] == f;
    }
    forall f | f in Fingerprints(s) ensures f in SeenFingerprints(s) {
      var i :| 0 <= i < |s| && Fingerprints(s)[i] == f;
      assert s[i] in s;
    }
  }

  // ---- what a batch adds ----

  /** New ones come from the batch, are new to the feed, and differ from each other. */
  lemma {:induction false} NewOnesAreNew(ids: set<string>, fps: set<Fingerprint>, batch: seq<Activity>)
    ensures var r := NewOnes(ids, fps, batch);
            && (forall a :: a in r ==> a in batch && a.id !in ids && FingerprintOf(a) !in fps)
            && NoDup(Fingerprints(r))
    decreases |batch|
  {
    if batch != [] {
      var a, rest := batch[0], batch[1..];
      assert batch == [a] + rest;
      if a.id !in ids && FingerprintOf(a) !in fps {
        NewOnesAreNew(ids + {a.id}, fps + {FingerprintOf(a)}, rest);
        var t := NewOnes(ids + {a.id}, fps + {FingerprintOf(a)}, rest);
        forall j | 0 <= j < |t| ensures FingerprintOf(t[j]) != FingerprintOf(a) {
          assert t[j] in t;
        }
        assert Fingerprints([a] + t) == [FingerprintOf(a)] + Fingerprints(t);
      } else {
        NewOnesAreNew(ids, fps, rest);
      }
    }
  }

  /** Every activity of a batch is new, or its id or fingerprint was seen: its event is covered. */
  lemma {:induction false} BatchCovered(ids: set<string>, fps: set<Fingerprint>, batch: seq<Activity>, all: set<Activity>, b: Activity)
    requires Coherent(all) && ToSet(batch) <= all && b in batch
    requires forall i :: i in ids ==> exists a :: a in all && a.id == i && FingerprintOf(a) in fps
    ensures FingerprintOf(b) in fps || FingerprintOf(b) in SeenFingerprints(NewOnes(ids, fps, batch))
    decreases |batch|
  {
    var a, rest := batch[0], batch[1..];
    assert batch == [a] + rest;
    assert a in ToSet(batch) && ToSet(rest) <= ToSet(batch);
    if a.id !in ids && FingerprintOf(a) !in fps {
      var t := NewOnes(ids + {a.id}, fps + {FingerprintOf(a)}, rest);
      assert forall x :: x in t ==> x in [a] + t;
      assert a in [a] + t;
      if b != a {
        BatchCovered(ids + {a.id}, fps + {FingerprintOf(a)}, rest, all, b);
      }
    } else if b == a {
      if a.id in ids {
        var c :| c in all && c.id == a.id && FingerprintOf(c) in fps;
      }
    } else {
      BatchCovered(ids, fps, rest, all, b);
    }
  }

  // ---- top-K of top-K absorbs what was evicted ----

  /** If a full feed's worth of a sorted list is at least as new as t, so are its first MAX_ACTIVITIES. */
  lemma FullMeansNewer(s: seq<Activity>, feed: seq<Activity>, t: int)
    requires NewestFirst(s) && NoDup(Fingerprints(s)) && NoDup(Fingerprints(feed)) && |feed| == MAX_ACTIVITIES
    requires ToSet(feed) <= ToSet(s) && forall b :: b in feed ==> b.time >= t
    ensures |s| >= MAX_ACTIVITIES && forall b :: b in s[..MAX_ACTIVITIES] ==> b.time >= t
  {
    hide NewestFirst, NoDup, SeenFingerprints, Fingerprints;
    PartCount(feed, s);
    forall b | b in s[..MAX_ACTIVITIES] ensures b.time >= t {
      var i :| 0 <= i < MAX_ACTIVITIES && s[i] == b;
      if b.time < t {
        forall c | c in feed ensures c in s[..i] {
          assert c in ToSet(s);
          NewerBefore(s, i, c);
        }
        assert ToSet(feed) <= ToSet(s[..i]);
        PartCount(feed, s[..i]);
      }
    }
  }

  lemma NewerBefore(s: seq<Activity>, i: nat, c: Activity)
    requires NewestFirst(s) && i < |s| && c in s && c.time > s[i].time
    ensures c in s[..i]
  {
    var k :| 0 <= k < |s| && s[k] == c;
    assert s[..i][k] == c;
  }

  /** A list of distinct events all found in another list is no longer than it. */
  lemma PartCount(part: seq<Activity>, whole: seq<Activity>)
    requires ToSet(part) <= ToSet(whole) && NoDup(Fingerprints(part))
    ensures |part| <= |whole|
  {
    FingerprintSet(part);
    FingerprintSet(whole);
    forall f | f in SeenFingerprints(part) ensures f in SeenFingerprints(whole) {
      var a :| a in part && FingerprintOf(a) == f;
      assert a in ToSet(whole);
    }
    CardIffNoDup(Fingerprints(part));
    CardIffNoDup(Fingerprints(whole));
    CardSubset(SeenFingerprints(part), SeenFingerprints(whole));
  }

  lemma PrefixFacts(s: seq<Activity>, n: nat)
    requires n <= |s|
    ensures NewestFirst(s) ==> NewestFirst(s[..n])
    ensures NoDup(Fingerprints(s)) ==> NoDup(Fingerprints(s[..n]))
    ensures ToSet(s[..n]) <= ToSet(s)
  {
    assert Fingerprints(s[..n]) == Fingerprints(s)[..n];
  }

  /** Cutting a merge: an event beyond the cut is no newer than anything kept. */
  lemma TakeShows(s: seq<Activity>, a: Activity)
    requires NewestFirst(s) && FingerprintOf(a) in SeenFingerprints(s)
    ensures Shown(Take(s), a)
  {
    var t := Take(s);
    var c :| c in s && FingerprintOf(c) == FingerprintOf(a);
    var k :| 0 <= k < |s| && s[k] == c;
    if k < |t| {
      assert t[k] == c;
    }
  }

  /** The merge before cutting: all events of the feed and of the batch, each once, newest first. */
  lemma MergeIsSound(feed: seq<Activity>, batch: seq<Activity>, all: set<Activity>)
    requires NoDup(Fingerprints(feed)) && ToSet(feed) <= all && ToSet(batch) <= all && Coherent(all)
    ensures var news := NewOnes(SeenIds(feed), SeenFingerprints(feed), batch);
            var s := SortByTime(news + feed);
            && NewestFirst(s) && NoDup(Fingerprints(s)) && ToSet(s) == ToSet(news) + ToSet(feed) && ToSet(news) <= ToSet(batch)
            && (forall b :: b in batch ==> FingerprintOf(b) in SeenFingerprints(feed) || FingerprintOf(b) in SeenFingerprints(news))
  {
    hide NoDup, NewestFirst, SortByTime, NewOnes, Fingerprints;
    var news := NewOnes(SeenIds(feed), SeenFingerprints(feed), batch);
    NewOnesAreNew(SeenIds(feed), SeenFingerprints(feed), batch);
    var both := news + feed;
    SortIsSorted(both);
    assert ToSet(both) == ToSet(news) + ToSet(feed);
    JoinedDistinct(news, feed);
    RearrangedDistinct(both, SortByTime(both));
    forall i | i in SeenIds(feed) ensures exists a :: a in all && a.id == i && FingerprintOf(a) in SeenFingerprints(feed) {
      var a :| a in feed && a.id == i;
      assert a in ToSet(feed) && FingerprintOf(a) in SeenFingerprints(feed);
    }
    forall b | b in batch ensures FingerprintOf(b) in SeenFingerprints(feed) || FingerprintOf(b) in SeenFingerprints(news) {
      BatchCovered(SeenIds(feed), SeenFingerprints(feed), batch, all, b);
    }
  }

  lemma JoinedDistinct(news: seq<Activity>, feed: seq<Activity>)
    requires NoDup(Fingerprints(news)) && NoDup(Fingerprints(feed))
    requires forall a :: a in news ==> FingerprintOf(a) !in SeenFingerprints(feed)
    ensures NoDup(Fingerprints(news + feed))
  {
    assert Fingerprints(news + feed) == Fingerprints(news) + Fingerprints(feed);
    FingerprintSet(feed);
    forall f | f in Fingerprints(news) ensures f !in Fingerprints(feed) {
      var i :| 0 <= i < |news| && Fingerprints(news)[i] == f;
      assert news[i] in news;
      assert f in Fingerprints(feed) ==> f in ToSet(Fingerprints(feed));
    }
    DisjointConcat(Fingerprints(news), Fingerprints(feed));
  }

  lemma SeenInUnion(feed: seq<Activity>, news: seq<Activity>, s: seq<Activity>, f: Fingerprint)
    requires ToSet(s) == ToSet(news) + ToSet(feed)
    ensures f in SeenFingerprints(feed) || f in SeenFingerprints(news) ==> f in SeenFingerprints(s)
  {
    assert forall x :: x in s <==> x in ToSet(s);
  }

  lemma MergeKeepsNewest(feed: seq<Activity>, batch: seq<Activity>, before: set<Activity>, all: set<Activity>)
    requires IsNewest(feed, before) && before <= all && ToSet(batch) <= all && Coherent(all)
    ensures IsNewest(Merged(feed, batch), before + ToSet(batch))
  {
    hide NewOnes, SortByTime, Coherent, FingerprintOf, NewestFirst, NoDup, Fingerprints;
    var news := NewOnes(SeenIds(feed), SeenFingerprints(feed), batch);
    MergeIsSound(feed, batch, all);
    var now := before + ToSet(batch);
    if news == [] {
      forall a | a in now ensures Shown(feed, a) {
        if a in ToSet(batch) {
          assert FingerprintOf(a) in SeenFingerprints(feed);
        }
      }
    } else {
      var s := SortByTime(news + feed);
      PrefixFacts(s, |Take(s)|);
      assert Take(s) == s[..|Take(s)|];
      forall a | a in now ensures Shown(Take(s), a) {
        SeenInUnion(feed, news, s, FingerprintOf(a));
        if FingerprintOf(a) in SeenFingerprints(s) {
          TakeShows(s, a);
        } else {
          assert Shown(feed, a);
          FullMeansNewer(s, feed, a.time);
        }
      }
    }
  }

  /**
   Whatever batches arrive, in any order and however often events are redelivered, the feed ends
   with the newest of everything delivered.
   */
  lemma {:induction false} FeedIsNewest(feed: seq<Activity>, batches: seq<seq<Activity>>, before: set<Activity>, all: set<Activity>)
    requires IsNewest(feed, before) && before <= all && Delivered(batches) <= all && Coherent(all)
    ensures IsNewest(MergedAll(feed, batches), before + Delivered(batches))
    decreases |batches|
  {
    if batches == [] {
      assert before + Delivered(batches) == before;
    } else {
      var b, rest := batches[0], batches[1..];
      assert batches == [b] + rest;
      assert Delivered(batches) == ToSet(b) + Delivered(rest) by {
        forall a | a in ToSet(b) + Delivered(rest) ensures a in Delivered(batches) {
          if a in ToSet(b) {
            assert b in batches;
          }
        }
      }
      MergeKeepsNewest(feed, b, before, all);
      FeedIsNewest(Merged(feed, b), rest, before + ToSet(b), all);
      assert before + ToSet(b) + Delivered(rest) == before + Delivered(batches);
    }
  }

  lemma FeedFromEmpty(batches: seq<seq<Activity>>)
    requires Coherent(Delivered(batches))
    ensures IsNewest(MergedAll([], batches), Delivered(batches))
  {
    FeedIsNewest([], batches, {}, Delivered(batches));
    assert {} + Delivered(batches) == Delivered(batches);
  }

  // ---- what makes two activities one event ----

  /** An id is not used for activities that differ in kind, agent or time. */
  ghost predicate IdsTellEvents(all: set<Activity>) {
    forall a, b :: a in all && b in all && a.id == b.id ==> a.kind == b.kind && a.agentId == b.agentId && a.time == b.time
  }

  /** Something the feed holds has the kind, agent and time of this activity. */
  ghost predicate Displayed(feed: seq<Activity>, a: Activity) {
    exists i :: 0 <= i < |feed| && feed[i].kind == a.kind && feed[i].agentId == a.agentId && feed[i].time == a.time
  }

  ghost predicate AllApart(feed: seq<Activity>) {
    forall i, j :: 0 <= i < j < |feed| ==>
      feed[i].kind != feed[j].kind || feed[i].agentId != feed[j].agentId || feed[i].time != feed[j].time
  }

  /**
   While there is room the feed displays the kind, agent and time of every delivery, so two that
   differ in one of them are both displayed; a full one leaves out only what is no newer than all
   it holds. It repeats none.
   */
  lemma NewestDisplaysAll(feed: seq<Activity>, all: set<Activity>)
    requires IsNewest(feed, all)
    ensures |feed| <= 500 && AllApart(feed)
    ensures forall a :: a in all && (|feed| < 500 || exists i :: 0 <= i < |feed| && feed[i].time < a.time) ==> Displayed(feed, a)
    ensures forall x :: x in feed ==> x in all
  {
    forall i, j | 0 <= i < j < |feed|
      ensures feed[i].kind != feed[j].kind || feed[i].agentId != feed[j].agentId || feed[i].time != feed[j].time
    {
      assert Fingerprints(feed)[i] == FingerprintOf(feed[i]) && Fingerprints(feed)[j] == FingerprintOf(feed[j]);
    }
    forall a | a in all && (|feed| < 500 || exists i :: 0 <= i < |feed| && feed[i].time < a.time) ensures Displayed(feed, a) {
      assert Shown(feed, a);
      assert forall i :: 0 <= i < |feed| ==> feed[i] in feed;
      var c :| c in feed && FingerprintOf(c) == FingerprintOf(a);
      var i :| 0 <= i < |feed| && feed[i] == c;
    }
    forall x | x in feed ensures x in all {
      assert x in ToSet(feed);
    }
  }

  /** So do batches from an empty feed, if no id is used for two such activities. */
  lemma BatchesDisplayAll(batches: seq<seq<Activity>>)
    requires IdsTellEvents(Delivered(batches))
    ensures var feed := MergedAll([], batches);
            && |feed| <= 500 && AllApart(feed)
            && (forall i, j :: 0 <= i < j < |feed| ==> feed[i].time >= feed[j].time)
            && (forall b, a :: b in batches && a in b && (|feed| < 500 || exists i :: 0 <= i < |feed| && feed[i].time < a.time) ==>
                 Displayed(feed, a))
            && (forall x :: x in feed ==> exists b :: b in batches && x in b)
  {
    FeedFromEmpty(batches);
    NewestDisplaysAll(MergedAll([], batches), Delivered(batches));
  }

  // ---- ids and events already shown ----

  ghost predicate IdsApart(feed: seq<Activity>) {
    forall i, j :: 0 <= i < j < |feed| ==> feed[i].id != feed[j].id
  }

  /** The same id, or the same kind, agent and time. */
  ghost predicate Same(a: Activity, b: Activity) {
    a.id == b.id || (a.kind == b.kind && a.agentId == b.agentId && a.time == b.time)
  }

  ghost predicate Held(feed: seq<Activity>, a: Activity) {
    exists i :: 0 <= i < |feed| && Same(feed[i], a)
  }

  lemma HeldIff(feed: seq<Activity>, a: Activity)
    ensures Held(feed, a) <==> a.id in SeenIds(feed) || FingerprintOf(a) in SeenFingerprints(feed)
  {
    if a.id in SeenIds(feed) {
      var b :| b in feed && b.id == a.id;
      var i :| 0 <= i < |feed| && feed[i] == b;
    }
    if FingerprintOf(a) in SeenFingerprints(feed) {
      var b :| b in feed && FingerprintOf(b) == FingerprintOf(a);
      var i :| 0 <= i < |feed| && feed[i] == b;
    }
    if Held(feed, a) {
      var i :| 0 <= i < |feed| && Same(feed[i], a);
      assert feed[i] in feed;
    }
  }

  ghost function IdsOf(s: seq<Activity>): seq<string> {
    seq(|s|, i requires 0 <= i < |s| => s[i].id)
  }

  lemma {:induction false} NewIds(ids: set<string>, fps: set<Fingerprint>, batch: seq<Activity>)
    ensures NoDup(IdsOf(NewOnes(ids, fps, batch)))
    decreases |batch|
  {
    if batch != [] {
      var a, rest := batch[0], batch[1..];
      if a.id !in ids && FingerprintOf(a) !in fps {
        var t := NewOnes(ids + {a.id}, fps + {FingerprintOf(a)}, rest);
        NewIds(ids + {a.id}, fps + {FingerprintOf(a)}, rest);
        NewOnesAreNew(ids + {a.id}, fps + {FingerprintOf(a)}, rest);
        hide NewOnes, FingerprintOf;
        forall j | 0 <= j < |t| ensures t[j].id != a.id {
          assert t[j] in t;
        }
        assert IdsOf([a] + t) == [a.id] + IdsOf(t);
      } else {
        NewIds(ids, fps, rest);
      }
    }
  }

  lemma {:induction false} InsertRearranges(a: Activity, s: seq<Activity>)
    ensures multiset(IdsOf(InsertByTime(a, s))) == multiset(IdsOf(s)) + multiset{a.id}
  {
    if s == [] || a.time >= s[0].time {
      assert IdsOf([a] + s) == [a.id] + IdsOf(s);
    } else {
      InsertRearranges(a, s[1..]);
      var t := InsertByTime(a, s[1..]);
      assert IdsOf([s[0]] + t) == [s[0].id] + IdsOf(t);
      assert IdsOf(s) == [s[0].id] + IdsOf(s[1..]);
    }
  }

  lemma {:induction false} SortRearranges(s: seq<Activity>)
    ensures multiset(IdsOf(SortByTime(s))) == multiset(IdsOf(s))
  {
    if s != [] {
      SortRearranges(s[1..]);
      InsertRearranges(s[0], SortByTime(s[1..]));
      assert IdsOf(s) == [s[0].id] + IdsOf(s[1..]);
    }
  }

  /** A list without repetition has each element once. */
  lemma {:induction false} OnceEach(s: seq<string>)
    ensures NoDup(s) <==> forall x :: multiset(s)[x] <= 1
  {
    if s != [] {
      var rest := s[1..];
      assert s == [s[0]] + rest;
      OnceEach(rest);
      assert s[0] in rest <==> multiset(rest)[s[0]] > 0;
      assert NoDup(s) <==> s[0] !in rest && NoDup(rest);
      assert forall x :: multiset(s)[x] == multiset(rest)[x] + if x == s[0] then 1 else 0;
    }
  }

  /**
   Whatever the batch, ids stay apart, and what joins the feed comes from the batch and is held by
   nothing that was in the feed.
   */
  lemma MergeKeepsIds(feed: seq<Activity>, batch: seq<Activity>)
    ensures IdsApart(feed) ==> IdsApart(Merged(feed, batch))
    ensures forall x :: x in Merged(feed, batch) ==> x in feed || (x in batch && !Held(feed, x))
  {
    var ids, fps := SeenIds(feed), SeenFingerprints(feed);
    var news := NewOnes(ids, fps, batch);
    NewOnesAreNew(ids, fps, batch);
    NewIds(ids, fps, batch);
    hide NewOnes, SortByTime, FingerprintOf, NoDup;
    var s := SortByTime(news + feed);
    SortIsSorted(news + feed);
    forall x | x in s ensures x in feed || (x in batch && !Held(feed, x)) {
      assert x in ToSet(s);
      assert x in ToSet(news + feed);
      HeldIff(feed, x);
    }
    if IdsApart(feed) {
      NewIdsJoin(news, feed);
      SortRearranges(news + feed);
      OnceEach(IdsOf(news + feed));
      OnceEach(IdsOf(s));
      ApartIffNoDup(s);
      assert forall i :: 0 <= i < |Take(s)| ==> Take(s)[i] == s[i];
    }
  }

  lemma ApartIffNoDup(s: seq<Activity>)
    ensures IdsApart(s) <==> NoDup(IdsOf(s))
  {
    if NoDup(IdsOf(s)) {
      forall i, j | 0 <= i < j < |s| ensures s[i].id != s[j].id {
        assert IdsOf(s)[i] == s[i].id && IdsOf(s)[j] == s[j].id;
      }
    }
  }

  lemma NewIdsJoin(news: seq<Activity>, feed: seq<Activity>)
    requires NoDup(IdsOf(news)) && IdsApart(feed) && forall a :: a in news ==> a.id !in SeenIds(feed)
    ensures NoDup(IdsOf(news + feed))
  {
    ApartIffNoDup(feed);
    assert IdsOf(news + feed) == IdsOf(news) + IdsOf(feed);
    forall x | x in IdsOf(news) ensures x !in IdsOf(feed) {
      var i :| 0 <= i < |news| && IdsOf(news)[i] == x;
      assert news[i] in news;
      assert forall j :: 0 <= j < |feed| ==> feed[j] in feed;
    }
    DisjointConcat(IdsOf(news), IdsOf(feed));
  }

  /** One whose id or event is held changes nothing; another is put in front. */
  lemma AddedIs(feed: seq<Activity>, a: Activity)
    ensures Held(feed, a) ==> Added(feed, a) == feed
    ensures !Held(feed, a) ==> Added(feed, a) == if |feed| < 500 then [a] + feed else ([a] + feed)[..500]
    ensures IdsApart(feed) ==> IdsApart(Added(feed, a))
  {
    HeldIff(feed, a);
    if IdsApart(feed) && !Held(feed, a) {
      forall i | 0 <= i < |feed| ensures feed[i].id != a.id {
        assert !Same(feed[i], a);
      }
      hide SeenIds, SeenFingerprints;
      assert IdsApart([a] + feed);
      assert forall i :: 0 <= i < |Added(feed, a)| ==> Added(feed, a)[i] == ([a] + feed)[i];
    }
  }

  // ---- with one event per instant the feed is determined ----

  ghost predicate OneEventPerInstant(all: set<Activity>) {
    forall a, b :: a in all && b in all && a.time == b.time ==> FingerprintOf(a) == FingerprintOf(b)
  }

  /** Order of arrival does not matter: two feeds of the same deliveries show the same events in the same places. */
  lemma {:induction false} NewestUnique(a: seq<Activity>, b: seq<Activity>, all: set<Activity>, k: nat)
    requires IsNewest(a, all) && IsNewest(b, all) && OneEventPerInstant(all) && k < |a|
    ensures k < |b| && FingerprintOf(a[k]) == FingerprintOf(b[k])
    decreases k
  {
    if k > 0 {
      NewestUnique(a, b, all, k - 1);
    }
    forall j | 0 <= j < k ensures j < |b| && a[j].time == b[j].time {
      NewestUnique(a, b, all, j);
    }
    StrictlyNewer(a, all);
    StrictlyNewer(b, all);
    NextNewest(a, b, all, k);
    NextNewest(b, a, all, k);
    KthIn(a, all, k);
    KthIn(b, all, k);
  }

  lemma StrictlyNewer(a: seq<Activity>, all: set<Activity>)
    requires IsNewest(a, all) && OneEventPerInstant(all)
    ensures forall i, j :: 0 <= i < j < |a| ==> a[i].time > a[j].time
  {
    forall i, j | 0 <= i < j < |a| ensures a[i].time > a[j].time {
      KthIn(a, all, i);
      KthIn(a, all, j);
      assert Fingerprints(a)[i] == FingerprintOf(a[i]) && Fingerprints(a)[j] == FingerprintOf(a[j]);
    }
  }

  lemma KthIn(a: seq<Activity>, all: set<Activity>, k: nat)
    requires IsNewest(a, all) && k < |a|
    ensures a[k] in all
  {
    assert a[k] in ToSet(a);
  }

  /** With equal instants before position k, the other feed has something at least as new there. */
  lemma NextNewest(a: seq<Activity>, b: seq<Activity>, all: set<Activity>, k: nat)
    requires IsNewest(a, all) && IsNewest(b, all) && OneEventPerInstant(all) && k < |a| && k <= |b|
    requires forall i, j :: 0 <= i < j < |a| ==> a[i].time > a[j].time
    requires forall i, j :: 0 <= i < j < |b| ==> b[i].time > b[j].time
    requires forall j :: 0 <= j < k ==> a[j].time == b[j].time
    ensures k < |b| && b[k].time >= a[k].time
  {
    hide ToSet, Coherent, NewestFirst, NoDup;
    KthIn(a, all, k);
    assert Shown(b, a[k]);
    if FingerprintOf(a[k]) in SeenFingerprints(b) {
      var c :| c in b && FingerprintOf(c) == FingerprintOf(a[k]);
      var i :| 0 <= i < |b| && b[i] == c;
      NotBefore(a, b, k, i);
    } else {
      assert b[k] in b;
    }
  }

  lemma NotBefore(a: seq<Activity>, b: seq<Activity>, k: nat, i: nat)
    requires forall i, j :: 0 <= i < j < |a| ==> a[i].time > a[j].time
    requires k < |a| && i < |b| && b[i].time == a[k].time
    requires forall j :: 0 <= j < k && j < |b| ==> a[j].time == b[j].time
    ensures k <= i
  {
  }

  // ---- a single activity is not merged, it is put in front ----

  lemma {:induction false} SortedStays(s: seq<Activity>)
    requires NewestFirst(s)
    ensures SortByTime(s) == s
  {
    if s != [] {
      SortedStays(s[1..]);
      assert s == [s[0]] + s[1..];
    }
  }

  /** A duplicate, or nothing shown is newer. */
  predicate InPlace(feed: seq<Activity>, a: Activity) {
    a.id in SeenIds(feed) || FingerprintOf(a) in SeenFingerprints(feed) || feed == [] || a.time >= feed[0].time
  }

  /** `addActivity` does what a batch of one would exactly when the activity is a duplicate or the newest. */
  lemma AddOneIffNewest(feed: seq<Activity>, a: Activity)
    requires NewestFirst(feed) && |feed| <= MAX_ACTIVITIES
    ensures Added(feed, a) == Merged(feed, [a]) <==> InPlace(feed, a)
  {
    var ids, fps := SeenIds(feed), SeenFingerprints(feed);
    OneNew(ids, fps, a);
    if a.id !in ids && FingerprintOf(a) !in fps {
      SortOne(feed, a);
      hide NewOnes, SortByTime, NewestFirst;
      if feed != [] && a.time < feed[0].time {
        assert feed[0] in feed;
        assert Merged(feed, [a])[0] == feed[0] && Added(feed, a)[0] == a;
      }
    }
  }

  /** The feed stays the newest of everything delivered exactly when that holds. */
  lemma AddedIsNewestIff(feed: seq<Activity>, a: Activity, before: set<Activity>)
    requires IsNewest(feed, before) && Coherent(before + {a})
    ensures IsNewest(Added(feed, a), before + {a}) <==> InPlace(feed, a)
  {
    AddOneIffNewest(feed, a);
    hide Coherent, Merged;
    if InPlace(feed, a) {
      assert ToSet([a]) == {a};
      MergeKeepsNewest(feed, [a], before, before + {a});
    } else {
      var r := Added(feed, a);
      assert r[0] == a && r[1] == feed[0];
      assert r[0].time < r[1].time;
    }
  }

  /** A late activity: the older one ends up in front. */
  lemma LateAddOutOfOrder()
    ensures var late, newer := Activity("2", "Stop", "sup", 1), Activity("1", "Stop", "sup", 2);
            && Merged([newer], [late]) == [newer, late]
            && Added([newer], late) == [late, newer]
            && !NewestFirst(Added([newer], late))
  {
    var late, newer := Activity("2", "Stop", "sup", 1), Activity("1", "Stop", "sup", 2);
    OneNew(SeenIds([newer]), SeenFingerprints([newer]), late);
    SortOne([newer], late);
    assert late.id != newer.id;
    assert InsertByTime(late, [newer]) == [newer] + InsertByTime(late, []);
  }

  // ---- any mixture of both ----

  datatype Call = One(activity: Activity) | Many(batch: seq<Activity>)

  function AfterCall(feed: seq<Activity>, call: Call): seq<Activity> {
    match call
    case One(a) => Added(feed, a)
    case Many(batch) => Merged(feed, batch)
  }

  function Brought(call: Call): set<Activity> {
    match call
    case One(a) => {a}
    case Many(batch) => ToSet(batch)
  }

  ghost function FeedAfter(feed: seq<Activity>, calls: seq<Call>): seq<Activity>
    decreases |calls|
  {
    if calls == [] then feed else FeedAfter(AfterCall(feed, calls[0]), calls[1..])
  }

  ghost function BroughtBy(calls: seq<Call>): set<Activity> {
    if calls == [] then {} else Brought(calls[0]) + BroughtBy(calls[1..])
  }

  /** Every single add was a duplicate or the newest at its time. */
  ghost predicate OnesInPlace(feed: seq<Activity>, calls: seq<Call>)
    decreases |calls|
  {
    calls == [] || (
      && (calls[0].One? ==> InPlace(feed, calls[0].activity))
      && OnesInPlace(AfterCall(feed, calls[0]), calls[1..]))
  }

  /** Then single adds and batches, in any mixture, leave the newest of everything delivered. */
  lemma {:induction false} MixedRunIsNewest(feed: seq<Activity>, calls: seq<Call>, before: set<Activity>)
    requires IsNewest(feed, before) && Coherent(before + BroughtBy(calls)) && OnesInPlace(feed, calls)
    ensures IsNewest(FeedAfter(feed, calls), before + BroughtBy(calls))
    decreases |calls|
  {
    if calls == [] {
      assert before + {} == before;
    } else {
      var first, rest, all := calls[0], calls[1..], before + BroughtBy(calls);
      assert all == (before + Brought(first)) + BroughtBy(rest);
      OneCallIsNewest(feed, first, before, all);
      hide IsNewest, Coherent, InPlace, AfterCall, Brought;
      MixedRunIsNewest(AfterCall(feed, first), rest, before + Brought(first));
    }
  }

  lemma OneCallIsNewest(feed: seq<Activity>, call: Call, before: set<Activity>, all: set<Activity>)
    requires IsNewest(feed, before) && before + Brought(call) <= all && Coherent(all)
    requires call.One? ==> InPlace(feed, call.activity)
    ensures IsNewest(AfterCall(feed, call), before + Brought(call))
  {
    hide IsNewest, Merged, Added, InPlace;
    match call
    case One(a) => AddedIsNewestIff(feed, a, before);
    case Many(batch) => MergeKeepsNewest(feed, batch, before, all);
  }

  lemma OneNew(ids: set<string>, fps: set<Fingerprint>, a: Activity)
    ensures NewOnes(ids, fps, [a]) == if a.id !in ids && FingerprintOf(a) !in fps then [a] else []
  {
    assert [a][1..] == [];
    assert NewOnes(ids, fps, []) == [] == NewOnes(ids + {a.id}, fps + {FingerprintOf(a)}, []);
  }

  lemma SortOne(feed: seq<Activity>, a: Activity)
    requires NewestFirst(feed)
    ensures SortByTime([a] + feed) == InsertByTime(a, feed)
  {
    SortedStays(feed);
    assert ([a] + feed)[1..] == feed;
  }

  // ---- the store ----

  class ActivityStore {
    var activities: seq<Activity>

    constructor ()
      ensures activities == []
    {
      activities := [];
    }

    /** Leaves the newest of everything delivered exactly when the activity is a duplicate or the newest. */
    method AddActivity(activity: Activity)
      modifies this
      ensures activities == Added(old(activities), activity)
      ensures forall before :: IsNewest(old(activities), before) && Coherent(before + {activity}) ==>
                (IsNewest(activities, before + {activity}) <==> InPlace(old(activities), activity))
      ensures Held(old(activities), activity) ==> activities == old(activities)
      ensures !Held(old(activities), activity) ==>
                activities == if |old(activities)| < 500 then [activity] + old(activities) else ([activity] + old(activities))[..500]
      ensures IdsApart(old(activities)) ==> IdsApart(activities)
    {
      AddedIs(activities, activity);
      hide Held, IdsApart;
      forall before | IsNewest(activities, before) && Coherent(before + {activity})
        ensures IsNewest(Added(activities, activity), before + {activity}) <==> InPlace(activities, activity)
      {
        AddedIsNewestIff(activities, activity, before);
      }
      hide IsNewest, Coherent, InPlace;
      var existingIds := SeenIds(activities);
      if activity.id in existingIds {
        return;
      }
      var existingFingerprints := SeenFingerprints(activities);
      if FingerprintOf(activity) in existingFingerprints {
        return;
      }
      activities := Take([activity] + activities);
    }

    /** Keeps the newest of everything delivered. */
    method AddActivities(batch: seq<Activity>)
      modifies this
      ensures activities == Merged(old(activities), batch)
      ensures forall before :: IsNewest(old(activities), before) && Coherent(before + ToSet(batch)) ==>
                IsNewest(activities, before + ToSet(batch))
      ensures forall x :: x in activities ==> x in old(activities) || (x in batch && !Held(old(activities), x))
      ensures IdsApart(old(activities)) ==> IdsApart(activities)
    {
      MergeKeepsIds(activities, batch);
      hide Held, IdsApart;
      forall before | IsNewest(activities, before) && Coherent(before + ToSet(batch))
        ensures IsNewest(Merged(activities, batch), before + ToSet(batch))
      {
        MergeKeepsNewest(activities, batch, before, before + ToSet(batch));
      }
      hide IsNewest, Coherent;
      var existingIds := SeenIds(activities);
      var existingFingerprints := SeenFingerprints(activities);
      var newActivities: seq<Activity> := [];
      var i := 0;
      while i < |batch|
        invariant 0 <= i <= |batch| && activities == old(activities)
        invariant newActivities + NewOnes(existingIds, existingFingerprints, batch[i..])
               == NewOnes(SeenIds(activities), SeenFingerprints(activities), batch)
      {
        var activity := batch[i];
        var fp := FingerprintOf(activity);
        assert batch[i..][1..] == batch[i + 1..];
        if activity.id !in existingIds && fp !in existingFingerprints {
          existingIds := existingIds + {activity.id};
          existingFingerprints := existingFingerprints + {fp};
          newActivities := newActivities + [activity];
        }
        i := i + 1;
      }
      assert batch[i..] == [];
      assert newActivities + [] == newActivities;
      if |newActivities| == 0 {
        return;
      }
      activities := Take(SortByTime(newActivities + activities));
    }

    method ClearActivities()
      modifies this
      ensures activities == []
    {
      activities := [];
    }
  }
}
