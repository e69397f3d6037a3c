/** What a trace's polls mean for the queue: messages taken, and polls that found none. */
module Polling {
  import opened Wrappers
  import opened KvStore
  import opened MessageQueue
  import opened SessionCache
  import opened Protocol
  import opened Serializability

  // ---------- counting polls ----------

  lemma {:induction false} PollsGrow(trace: seq<Op>, i: nat)
    requires i <= |trace|
    ensures |Polls(trace[..i])| <= |Polls(trace)|
    ensures (exists j :: i <= j < |trace| && trace[j].Poll?) <==> |Polls(trace[..i])| < |Polls(trace)|
  {
    if i == |trace| {
      assert trace[..i] == trace;
    } else {
      var n := |trace| - 1;
      var front := trace[..n];
      PollsGrow(front, i);
      assert front[..i] == trace[..i];
      if j :| i <= j < |trace| && trace[j].Poll? && j < n {
        assert front[j].Poll?;
      }
      if j :| i <= j < |front| && front[j].Poll? {
        assert trace[j].Poll?;
      }
    }
  }

  /** An atomic session counts the messages of its trace. */
  lemma {:induction false} AtomicCount(entry: Store, trace: seq<Op>)
    requires AtomicOps(entry, trace).Some?
    ensures AtomicOps(entry, trace).value.polled == |Polls(trace)|
  {
    hide ReadIndex, Get, Set;
    if trace != [] {
      AtomicCount(entry, trace[..|trace| - 1]);
    }
  }

  // ---------- polls that found nothing ----------

  /** Each poll that found nothing would find nothing in this queue, after the messages polled before it. */
  ghost predicate EmptiesTrue(q: Queue, trace: seq<Op>) {
    forall i | 0 <= i < |trace| && trace[i].Empty? :: |Polls(trace[..i])| >= |q.items|
  }

  ghost predicate NoMessageAfterEmpty(trace: seq<Op>) {
    forall i, j | 0 <= i < j < |trace| :: !(trace[i].Empty? && trace[j].Poll?)
  }

  /**
    Of a session that polled a prefix of the queue, the polls that found nothing are true of that
    queue exactly when it polled the whole of it, and nothing after the first such poll.
   */
  lemma EmptiesTrueExactlyWhen(q: Queue, trace: seq<Op>)
    requires Polls(trace) <= q.items
    ensures EmptiesTrue(q, trace) <==>
            (Empty in trace ==> NoMessageAfterEmpty(trace) && |Polls(trace)| == |q.items|)
  {
    hide Polls;
    if EmptiesTrue(q, trace) && Empty in trace {
      var e :| 0 <= e < |trace| && trace[e] == Empty;
      PollsGrow(trace, e);
      forall i, j | 0 <= i < j < |trace| ensures !(trace[i].Empty? && trace[j].Poll?) {
        PollsGrow(trace, i);
      }
    }
    if Empty in trace ==> NoMessageAfterEmpty(trace) && |Polls(trace)| == |q.items| {
      forall i | 0 <= i < |trace| && trace[i].Empty? ensures |Polls(trace[..i])| >= |q.items| {
        assert trace[i] in trace;
        PollsGrow(trace, i);
      }
    }
  }

  lemma EmptiesTrueSnoc(q: Queue, trace: seq<Op>)
    requires trace != []
    ensures var front, last := trace[..|trace| - 1], trace[|trace| - 1];
            EmptiesTrue(q, trace) <==> EmptiesTrue(q, front) && (last.Empty? ==> |Polls(front)| >= |q.items|)
  {
    hide Polls;
    var n := |trace| - 1;
    var front := trace[..n];
    forall i | 0 <= i < n ensures front[..i] == trace[..i] && front[i] == trace[i] {
    }
    if EmptiesTrue(q, trace) {
      forall i | 0 <= i < |front| && front[i].Empty? ensures |Polls(front[..i])| >= |q.items| {
        assert trace[i].Empty?;
      }
    }
  }

  /** A whole trace replays on a store exactly when it does without such polls and these are true of its queue. */
  lemma {:induction false} ReplayWithEmpties(kv: Store, q: Queue, trace: seq<Op>)
    requires Represents(kv, q)
    ensures AtomicOps(kv, trace) ==
            if EmptiesTrue(q, trace) then AtomicOps(kv, WithoutEmpty(trace)) else None
  {
    hide EmptiesTrue;
    if trace == [] {
      NoEmpties(q);
    } else {
      var front, last := trace[..|trace| - 1], trace[|trace| - 1];
      ReplayWithEmpties(kv, q, front);
      EmptiesTrueSnoc(q, trace);
      LastWithEmpties(kv, q, trace);
    }
  }

  lemma LastWithEmpties(kv: Store, q: Queue, trace: seq<Op>)
    requires Represents(kv, q) && trace != []
    ensures var front, last := trace[..|trace| - 1], trace[|trace| - 1];
            match AtomicOps(kv, WithoutEmpty(front))
            case None => AtomicOps(kv, WithoutEmpty(trace)).None?
            case Some(local) =>
              if last.Empty?
              then WithoutEmpty(trace) == WithoutEmpty(front)
                   && AtomicOp(kv, local, last) == if |Polls(front)| >= |q.items| then Some(local) else None
              else AtomicOps(kv, WithoutEmpty(trace)) == AtomicOp(kv, local, last)
  {
    hide AtomicOps, ReadIndex, Get, Polls;
    var front, last := trace[..|trace| - 1], trace[|trace| - 1];
    if AtomicOps(kv, WithoutEmpty(front)).Some? {
      AtomicCount(kv, WithoutEmpty(front));
      EmptyAddsNothing(front);
    }
    if !last.Empty? {
      AtomicSnoc(kv, WithoutEmpty(front), last);
    }
  }

  lemma NoEmpties(q: Queue)
    ensures EmptiesTrue(q, [])
  {
  }
}
