/** The thought endpoint's duplicate window, and why its periodic cleanup cannot be observed. */
module Thoughts {
  import opened Collections

  const DEDUP_WINDOW_SECONDS := 30.0
  const DEDUP_CLEANUP_INTERVAL := 100

  type Recent = map<string, (string, real)>

  /** One request: the two clock readings it makes and the id it would be given. */
  datatype Request = Request(key: string, cleanupTime: real, now: real, newId: string)

  datatype Answer = Accepted(id: string) | Duplicate(id: string)

  /** What an agent thought or what a tool gave it. */
  datatype Thought = Thought(kind: string, content: Option<string>, toolName: Option<string>, toolInput: Option<string>,
                             toolResponse: Option<string>)

  // ---- keys ----

  /** What is hashed; the hash itself is taken to be injective. */
  function DedupKey(agent: string, content: Option<string>): string {
    agent + ":" + if content.Some? then content.value else ""
  }

  function Text(content: Option<string>): string {
    if content.Some? then content.value else ""
  }

  /** Of a thought only the content counts. */
  function Key(agent: string, t: Thought): string {
    DedupKey(agent, t.content)
  }

  function RequestFor(agent: string, t: Thought, cleanupTime: real, now: real, newId: string): Request {
    Request(Key(agent, t), cleanupTime, now, newId)
  }

  /** One name, with its colon, begins the other. */
  predicate Mixable(a: string, b: string) {
    a + ":" <= b + ":" || b + ":" <= a + ":"
  }

  /** Keys agree exactly when one name begins the other and the texts differ by just the rest of it. */
  lemma SameKeyIff(a: string, x: Option<string>, b: string, y: Option<string>)
    ensures DedupKey(a, x) == DedupKey(b, y) <==>
              || (a + ":" <= b + ":" && Text(x) == (b + ":")[|a| + 1..] + Text(y))
              || (b + ":" <= a + ":" && Text(y) == (a + ":")[|b| + 1..] + Text(x))
  {
    KeyOfShorter(a, Text(x), b, Text(y));
    KeyOfShorter(b, Text(y), a, Text(x));
  }

  lemma KeyOfShorter(a: string, x: string, b: string, y: string)
    ensures |a| <= |b| ==> (a + ":" + x == b + ":" + y <==> a + ":" <= b + ":" && x == (b + ":")[|a| + 1..] + y)
    ensures |a| == |b| && a + ":" <= b + ":" ==> a + ":" == b + ":" && (b + ":")[|a| + 1..] == ""
    ensures a + ":" <= b + ":" ==> |a| <= |b|
  {
    var p, q := a + ":", b + ":";
    if |a| <= |b| {
      if p + x == q + y {
        assert p == (p + x)[..|p|] == (q + y)[..|p|] == q[..|p|];
        assert x == (p + x)[|p|..] == (q + y)[|p|..] == q[|p|..] + y;
      }
      if p <= q && x == q[|p|..] + y {
        assert q == p + q[|p|..];
        assert p + (q[|p|..] + y) == q + y;
      }
    }
  }

  /**
   Equal keys mean the same agent and the same thought, whatever is thought, exactly when neither
   name begins the other; so for one agent they never do.
   */
  lemma SameKeyIffSameThought(a: string, b: string)
    ensures (forall t, u :: Key(a, t) == Key(b, u) ==> a == b && t == u) <==> !Mixable(a, b)
  {
    if Mixable(a, b) {
      var x, y := TextsThatMix(a, b);
      var t := Thought("tool_result", x, Some("bash"), None, Some("0"));
      var u := Thought("tool_result", y, Some("bash"), None, Some("1"));
      assert Key(a, t) == Key(b, u);
      assert t != u by { assert "0"[0] != "1"[0]; }
    } else {
      forall t, u ensures Key(a, t) != Key(b, u) {
        SameKeyIff(a, t.content, b, u.content);
      }
    }
  }

  /** Of the thoughts one agent may have, keys tell all apart exactly when the text fixes the rest. */
  lemma KeysTellApartIff(agent: string, thinks: Thought -> bool)
    ensures (forall t, u :: thinks(t) && thinks(u) && Key(agent, t) == Key(agent, u) ==> t == u)
            <==> forall t, u :: thinks(t) && thinks(u) && Text(t.content) == Text(u.content) ==> t == u
  {
    forall t: Thought, u: Thought ensures Key(agent, t) == Key(agent, u) <==> Text(t.content) == Text(u.content) {
      SameKeyIff(agent, t.content, agent, u.content);
      assert (agent + ":")[|agent| + 1..] == "";
      assert "" + Text(u.content) == Text(u.content) && "" + Text(t.content) == Text(t.content);
    }
  }

  /** Keys tell two agents' texts apart, whatever they are, exactly when the agent is one or neither name begins the other. */
  lemma SameKeyIffSameText(a: string, b: string)
    ensures (forall x, y :: DedupKey(a, x) == DedupKey(b, y) ==> a == b && Text(x) == Text(y)) <==> a == b || !Mixable(a, b)
  {
    if a == b {
      forall x, y | DedupKey(a, x) == DedupKey(b, y) ensures Text(x) == Text(y) {
        SameKeyIff(a, x, b, y);
      }
    } else if Mixable(a, b) {
      var x, y := TextsThatMix(a, b);
    } else {
      forall x, y ensures DedupKey(a, x) != DedupKey(b, y) {
        SameKeyIff(a, x, b, y);
      }
    }
  }

  lemma TextsThatMix(a: string, b: string) returns (x: Option<string>, y: Option<string>)
    requires Mixable(a, b)
    ensures DedupKey(a, x) == DedupKey(b, y)
  {
    if a + ":" <= b + ":" {
      x, y := Some((b + ":")[|a| + 1..]), None;
    } else {
      x, y := None, Some((a + ":")[|b| + 1..]);
    }
    assert x.Some? ==> x.value + "" == x.value;
    assert y.Some? ==> y.value + "" == y.value;
    SameKeyIff(a, x, b, y);
  }

  /** Different names without a colon never mix. */
  lemma ColonFreeNamesApart(a: string, b: string)
    requires ':' !in a && ':' !in b && a != b
    ensures !Mixable(a, b)
  {
    ColonEndsName(a, b);
    ColonEndsName(b, a);
  }

  lemma ColonEndsName(a: string, b: string)
    requires ':' !in b
    ensures a + ":" <= b + ":" ==> a == b
  {
    if a + ":" <= b + ":" {
      assert (b + ":")[|a|] == (a + ":")[|a|] == ':';
      assert forall i :: 0 <= i < |b| ==> (b + ":")[i] == b[i] && b[i] in b;
      assert |a| == |b|;
      assert a == (a + ":")[..|a|] == (b + ":")[..|a|] == b;
    }
  }

  /** With a colon in a name, different agents can share a key. */
  lemma ColonNamesCollide()
    ensures DedupKey("sup:a", Some("idle")) == DedupKey("sup", Some("a:idle"))
  {
    assert "sup:a" + ":" + "idle" == "sup" + ":" + "a:idle";
  }

  // ---- the window ----

  function Cleanup(recent: Recent, now: real): Recent {
    map k | k in recent && now - recent[k].1 < DEDUP_WINDOW_SECONDS :: recent[k]
  }

  function Lookup(recent: Recent, r: Request): Answer {
    if r.key in recent && r.now - recent[r.key].1 < DEDUP_WINDOW_SECONDS then Duplicate(recent[r.key].0) else Accepted(r.newId)
  }

  function Remember(recent: Recent, r: Request): Recent {
    if Lookup(recent, r).Accepted? then recent[r.key := (r.newId, r.now)] else recent
  }

  /** The map a request works on: cleaned up when it is a multiple of the interval. */
  function Prepared(recent: Recent, count: nat, r: Request): Recent {
    if (count + 1) % DEDUP_CLEANUP_INTERVAL == 0 then Cleanup(recent, r.cleanupTime) else recent
  }

  /** Answers with periodic cleanup, after `count` earlier requests. */
  ghost function Answers(recent: Recent, count: nat, requests: seq<Request>): seq<Answer>
    decreases |requests|
  {
    if requests == [] then []
    else
      var ready := Prepared(recent, count, requests[0]);
      [Lookup(ready, requests[0])] + Answers(Remember(ready, requests[0]), count + 1, requests[1..])
  }

  /** Answers if nothing were ever forgotten. */
  ghost function PlainAnswers(recent: Recent, requests: seq<Request>): seq<Answer>
    decreases |requests|
  {
    if requests == [] then []
    else [Lookup(recent, requests[0])] + PlainAnswers(Remember(recent, requests[0]), requests[1..])
  }

  /** The clock never goes back. */
  ghost predicate Monotone(from: real, requests: seq<Request>)
    decreases |requests|
  {
    requests == [] || (from <= requests[0].cleanupTime <= requests[0].now && Monotone(requests[0].now, requests[1..]))
  }

  /** `small` is `full` less some entries that had expired by time t. */
  ghost predicate ForgotOnlyExpired(small: Recent, full: Recent, t: real) {
    && (forall k :: k in small ==> k in full && small[k] == full[k])
    && (forall k :: k in full && k !in small ==> t - full[k].1 >= DEDUP_WINDOW_SECONDS)
  }

  /** Cleanup is invisible: every request gets the answer it would get if nothing were forgotten. */
  lemma {:induction false} CleanupInvisible(small: Recent, full: Recent, count: nat, t: real, requests: seq<Request>)
    requires ForgotOnlyExpired(small, full, t) && Monotone(t, requests)
    ensures Answers(small, count, requests) == PlainAnswers(full, requests)
    decreases |requests|
  {
    if requests != [] {
      var r := requests[0];
      var ready := Prepared(small, count, r);
      assert ForgotOnlyExpired(ready, full, r.now);
      CleanupInvisible(Remember(ready, r), Remember(full, r), count + 1, r.now, requests[1..]);
    }
  }

  lemma AnswersAsIfNeverCleaned(requests: seq<Request>, t: real)
    requires Monotone(t, requests)
    ensures Answers(map[], 0, requests) == PlainAnswers(map[], requests)
  {
    CleanupInvisible(map[], map[], 0, t, requests);
  }

  // ---- what the window promises ----

  /** The last acceptance of a key among the first n requests. */
  ghost predicate LastAccepted(requests: seq<Request>, answers: seq<Answer>, n: nat, key: string, i: int)
    requires n <= |requests| == |answers|
  {
    && 0 <= i < n && requests[i].key == key && answers[i].Accepted?
    && forall j :: i < j < n && requests[j].key == key ==> answers[j].Duplicate?
  }

  /** What is remembered after n requests is exactly the last acceptance of each key. */
  ghost predicate RemembersLast(recent: Recent, requests: seq<Request>, answers: seq<Answer>, n: nat)
    requires n <= |requests| == |answers|
  {
    && (forall k :: k in recent ==> exists i :: LastAccepted(requests, answers, n, k, i)
                                             && answers[i] == Accepted(recent[k].0) && requests[i].now == recent[k].1)
    && (forall j :: 0 <= j < n ==> requests[j].key in recent)
  }

  /** What is remembered after n requests, nothing being forgotten. */
  ghost function After(requests: seq<Request>, n: nat): Recent
    requires n <= |requests|
  {
    if n == 0 then map[] else Remember(After(requests, n - 1), requests[n - 1])
  }

  lemma {:induction false} PlainAnswerAt(recent: Recent, requests: seq<Request>, k: nat, n: nat)
    requires k <= n < |requests| && recent == After(requests, k)
    ensures |PlainAnswers(recent, requests[k..])| == |requests| - k
    ensures PlainAnswers(recent, requests[k..])[n - k] == Lookup(After(requests, n), requests[n])
    decreases |requests| - k
  {
    assert requests[k..][1..] == requests[k + 1..];
    if k < n {
      PlainAnswerAt(After(requests, k + 1), requests, k + 1, n);
    } else {
      AnswerCount(Remember(recent, requests[k]), requests[k + 1..]);
    }
  }

  lemma {:induction false} AnswerCount(recent: Recent, requests: seq<Request>)
    ensures |PlainAnswers(recent, requests)| == |requests|
    decreases |requests|
  {
    if requests != [] {
      AnswerCount(Remember(recent, requests[0]), requests[1..]);
    }
  }

  ghost function AnswersOf(requests: seq<Request>): (r: seq<Answer>)
    ensures |r| == |requests|
  {
    AnswerCount(map[], requests);
    PlainAnswers(map[], requests)
  }

  lemma NextAnswer(requests: seq<Request>, m: nat)
    requires m < |requests|
    ensures AnswersOf(requests)[m] == Lookup(After(requests, m), requests[m])
    ensures After(requests, m + 1) == Remember(After(requests, m), requests[m])
  {
    PlainAnswerAt(map[], requests, 0, m);
    assert requests[0..] == requests;
  }

  lemma RemembersStep(requests: seq<Request>, answers: seq<Answer>, m: nat, before: Recent)
    requires m < |requests| == |answers| && RemembersLast(before, requests, answers, m)
    requires answers[m] == Lookup(before, requests[m])
    ensures RemembersLast(Remember(before, requests[m]), requests, answers, m + 1)
  {
    var now := Remember(before, requests[m]);
    forall k | k in now
      ensures exists i :: LastAccepted(requests, answers, m + 1, k, i)
                          && answers[i] == Accepted(now[k].0) && requests[i].now == now[k].1
    {
      if k == requests[m].key && answers[m].Accepted? {
        assert LastAccepted(requests, answers, m + 1, k, m);
      } else {
        var i :| LastAccepted(requests, answers, m, k, i) && answers[i] == Accepted(before[k].0) && requests[i].now == before[k].1;
        assert LastAccepted(requests, answers, m + 1, k, i);
      }
    }
  }

  lemma RemembersNothing(requests: seq<Request>)
    ensures RemembersLast(After(requests, 0), requests, AnswersOf(requests), 0)
  {
  }

  lemma {:induction false} RemembersAfter(requests: seq<Request>, n: nat)
    requires n <= |requests|
    ensures RemembersLast(After(requests, n), requests, AnswersOf(requests), n)
  {
    hide RemembersLast, After, AnswersOf, Lookup, Remember;
    if n == 0 {
      RemembersNothing(requests);
    } else {
      RemembersAfter(requests, n - 1);
      NextAnswer(requests, n - 1);
      RemembersStep(requests, AnswersOf(requests), n - 1, After(requests, n - 1));
    }
  }

  /** Request n is a duplicate exactly when its key was accepted less than the window ago; it then gets that id. */
  lemma DuplicateIffRecent(requests: seq<Request>, n: nat)
    requires n < |requests|
    ensures var answers := AnswersOf(requests);
            answers[n].Duplicate? <==>
              exists i :: LastAccepted(requests, answers, n, requests[n].key, i)
                          && requests[n].now - requests[i].now < DEDUP_WINDOW_SECONDS
    ensures var answers := AnswersOf(requests);
            forall i :: LastAccepted(requests, answers, n, requests[n].key, i) && answers[n].Duplicate?
              ==> answers[n].id == answers[i].id
    ensures AnswersOf(requests)[n].Accepted? ==> AnswersOf(requests)[n].id == requests[n].newId
  {
    var answers, key := AnswersOf(requests), requests[n].key;
    hide After, AnswersOf;
    RemembersAfter(requests, n);
    NextAnswer(requests, n);
    var recent := After(requests, n);
    assert forall j: int :: LastAccepted(requests, answers, n, key, j) ==> requests[j].key in recent;
    if key in recent {
      var i :| LastAccepted(requests, answers, n, key, i) && answers[i] == Accepted(recent[key].0) && requests[i].now == recent[key].1;
      forall j | LastAccepted(requests, answers, n, key, j) ensures j == i {
      }
    }
  }

  lemma {:induction false} ClockMoves(requests: seq<Request>, from: real, i: nat, j: nat)
    requires Monotone(from, requests) && i <= j < |requests|
    ensures from <= requests[i].now <= requests[j].now
    decreases |requests|
  {
    if i > 0 {
      ClockMoves(requests[1..], requests[0].now, i - 1, j - 1);
    } else if j > 0 {
      ClockMoves(requests[1..], requests[0].now, j - 1, j - 1);
    }
  }

  /** Two acceptances of one key lie at least the window apart. */
  lemma AcceptedApart(requests: seq<Request>, t: real, i: nat, j: nat)
    requires Monotone(t, requests) && i < j < |requests| && requests[i].key == requests[j].key
    requires AnswersOf(requests)[i].Accepted? && AnswersOf(requests)[j].Accepted?
    ensures requests[j].now - requests[i].now >= DEDUP_WINDOW_SECONDS
  {
    var answers := AnswersOf(requests);
    DuplicateIffRecent(requests, j);
    var k := LatestAcceptance(requests, answers, i, j);
    assert LastAccepted(requests, answers, j, requests[j].key, k);
    ClockMoves(requests, t, i, k);
  }

  lemma {:induction false} LatestAcceptance(requests: seq<Request>, answers: seq<Answer>, i: nat, j: nat) returns (k: nat)
    requires i < j <= |requests| == |answers| && answers[i].Accepted?
    ensures i <= k && LastAccepted(requests, answers, j, requests[i].key, k)
    decreases j - i
  {
    if forall m :: i < m < j && requests[m].key == requests[i].key ==> answers[m].Duplicate? {
      k := i;
    } else {
      var m :| i < m < j && requests[m].key == requests[i].key && !answers[m].Duplicate?;
      k := LatestAcceptance(requests, answers, m, j);
    }
  }

  // ---- what is lost ----

  /**
   Two results of a tool, without a content as the plugin sends them: the second one, less than the
   window later, is answered with the first one's id.
   */
  lemma ToolResultLost(agent: string, tool: string, one: string, other: string, now: real, later: real, ids: (string, string))
    requires one != other && now <= later < now + DEDUP_WINDOW_SECONDS
    ensures var t, u := Thought("tool_result", None, Some(tool), None, Some(one)), Thought("tool_result", None, Some(tool), None, Some(other));
            && t != u
            && AnswersOf([RequestFor(agent, t, now, now, ids.0), RequestFor(agent, u, later, later, ids.1)])
               == [Accepted(ids.0), Duplicate(ids.0)]
  {
    var t, u := Thought("tool_result", None, Some(tool), None, Some(one)), Thought("tool_result", None, Some(tool), None, Some(other));
    var first, second := RequestFor(agent, t, now, now, ids.0), RequestFor(agent, u, later, later, ids.1);
    hide Key;
    assert first.key == second.key by { KeyIgnoresTools(agent, t, u); }
    var requests := [first, second];
    assert requests[1..] == [second] && [second][1..] == [];
    var recent := map[first.key := (ids.0, now)];
    assert Remember(map[], first) == recent;
    assert PlainAnswers(recent, [second]) == [Lookup(recent, second)] + PlainAnswers(Remember(recent, second), []);
    assert PlainAnswers(map[], requests) == [Accepted(ids.0)] + PlainAnswers(recent, [second]);
  }

  lemma KeyIgnoresTools(agent: string, t: Thought, u: Thought)
    requires t.content == u.content
    ensures Key(agent, t) == Key(agent, u)
  {
  }

  // ---- the module state ----

  class DedupCache {
    var recent: Recent
    var requestCount: nat

    constructor ()
      ensures recent == map[] && requestCount == 0
    {
      recent, requestCount := map[], 0;
    }

    method Receive(r: Request) returns (answer: Answer)
      modifies this
      ensures answer == Lookup(Prepared(old(recent), old(requestCount), r), r)
      ensures recent == Remember(Prepared(old(recent), old(requestCount), r), r)
      ensures requestCount == old(requestCount) + 1
      ensures answer.Accepted? ==> answer.id == r.newId && r.key in recent && recent[r.key] == (r.newId, r.now)
      ensures answer.Duplicate? ==> r.key in old(recent) && r.key in recent && recent[r.key] == old(recent)[r.key]
      ensures answer.Duplicate? ==> answer.id == old(recent)[r.key].0 && r.now - old(recent)[r.key].1 < 30.0
      ensures answer.Accepted? && r.key in old(recent) && r.cleanupTime <= r.now ==> r.now - old(recent)[r.key].1 >= 30.0
      ensures forall k :: k in recent && k != r.key ==> k in old(recent) && recent[k] == old(recent)[k]
      ensures forall k :: k in old(recent) && k != r.key ==>
                (k in recent <==> requestCount % 100 != 0 || r.cleanupTime - old(recent)[k].1 < 30.0)
    {
      requestCount := requestCount + 1;
      if requestCount % DEDUP_CLEANUP_INTERVAL == 0 {
        recent := Cleanup(recent, r.cleanupTime);
      }
      if r.key in recent {
        var (existingId, ts) := recent[r.key];
        if r.now - ts < DEDUP_WINDOW_SECONDS {
          return Duplicate(existingId);
        }
      }
      recent := recent[r.key := (r.newId, r.now)];
      return Accepted(r.newId);
    }

    /** A whole run of requests answers as if nothing were ever forgotten. */
    method ReceiveAll(requests: seq<Request>, ghost t: real) returns (answers: seq<Answer>)
      requires recent == map[] && requestCount == 0 && Monotone(t, requests)
      modifies this
      ensures answers == AnswersOf(requests)
    {
      answers := [];
      var i := 0;
      assert requests[0..] == requests;
      while i < |requests|
        invariant 0 <= i <= |requests|
        invariant answers + Answers(recent, requestCount, requests[i..]) == Answers(map[], 0, requests)
      {
        assert requests[i..][1..] == requests[i + 1..];
        var answer := Receive(requests[i]);
        answers := answers + [answer];
        i := i + 1;
      }
      assert requests[i..] == [];
      assert answers + [] == answers;
      AnswersAsIfNeverCleaned(requests, t);
    }
  }
}
