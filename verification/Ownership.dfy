/** Calls and the jobs that own them: what the two Step Functions owners share. */
module Ownership {

  type Call = nat
  type Job = nat

  predicate Distinct(s: seq<Call>) {
    forall i, j | 0 <= i < j < |s| :: s[i] != s[j]
  }

  /** The first is ahead of the second. */
  predicate Ahead(queue: seq<Call>, c: Call, d: Call) {
    exists x, y :: 0 <= x < y < |queue| && queue[x] == c && queue[y] == d
  }

  lemma AheadOn(queue: seq<Call>, next: seq<Call>, c: Call, d: Call)
    requires Ahead(queue, c, d) && Distinct(queue) && c in next
    requires next == queue || next == queue[1..] || queue <= next
    ensures Ahead(next, c, d)
  {
    var x, y :| 0 <= x < y < |queue| && queue[x] == c && queue[y] == d;
    if next == queue[1..] && next != queue {
      var k :| 0 <= k < |next| && next[k] == c;
      assert queue[k + 1] == c && x == k + 1;
      assert next[x - 1] == c && next[y - 1] == d;
    } else {
      assert next[x] == c && next[y] == d;
    }
  }

  lemma AheadLast(queue: seq<Call>, c: Call, d: Call)
    requires c in queue
    ensures Ahead(queue + [d], c, d)
  {
    var x :| 0 <= x < |queue| && queue[x] == c;
    assert (queue + [d])[x] == c && (queue + [d])[|queue|] == d;
  }

  predicate InSlots(slots: map<Job, Call>, c: Call) {
    exists j :: j in slots && slots[j] == c
  }

  lemma RemoveFromSlots(slots: map<Job, Call>, j: Job)
    requires j in slots
    requires forall i, k | i in slots && k in slots && i != k :: slots[i] != slots[k]
    ensures |slots - {j}| == |slots| - 1
    ensures forall c :: InSlots(slots - {j}, c) <==> InSlots(slots, c) && c != slots[j]
  {
    assert slots.Keys == (slots - {j}).Keys + {j};
    forall c | InSlots(slots, c) && c != slots[j] ensures InSlots(slots - {j}, c) {
      var i :| i in slots && slots[i] == c;
      assert i in slots - {j};
    }
  }

  lemma AddToSlots(slots: map<Job, Call>, j: Job, c: Call)
    requires j !in slots
    ensures |slots[j := c]| == |slots| + 1 && slots[j := c].Keys == slots.Keys + {j}
    ensures forall d :: InSlots(slots[j := c], d) <==> InSlots(slots, d) || d == c
  {
    var added := slots[j := c];
    assert added[j] == c;
    forall d | InSlots(slots, d) ensures InSlots(added, d) {
      var i :| i in slots && slots[i] == d;
      assert i in added && added[i] == d;
    }
  }

  lemma AnswersOfQueue(answers: multiset<Call>, queue: seq<Call>)
    requires queue != []
    ensures (answers + multiset{queue[0]}) + multiset(queue[1..]) == answers + multiset(queue)
  {
    assert queue == [queue[0]] + queue[1..];
    assert multiset(queue) == multiset{queue[0]} + multiset(queue[1..]);
  }
}
