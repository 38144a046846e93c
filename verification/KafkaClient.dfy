/**
 The client library and the brokers, as far as the consumers see them. Each method is one step
 of the environment; which of the allowed outcomes happens is not determined.
 */
module KafkaClient {
  import opened Base
  import opened Headers
  import opened KafkaCluster
  import H = KafkaHeaders
  import P = Protocol

  datatype Polled = Polled(slot: Slot, rec: H.Rec)

  function SlotsOf(batch: seq<Polled>): (s: seq<Slot>)
    ensures |s| == |batch| && forall i :: 0 <= i < |batch| ==> s[i] == batch[i].slot
  {
    seq(|batch|, i requires 0 <= i < |batch| => batch[i].slot)
  }

  /** A polled batch: records of `topic` as the log has them. */
  predicate FromLog(st: St, topic: string, batch: seq<Polled>) {
    forall b :: b in batch ==> b.slot in st.recs && st.recs[b.slot] == b.rec && b.slot.topic == topic
  }

  lemma FromLogIsBatch(sys: Setup, st: St, topic: string, batch: seq<Polled>)
    requires FromLog(st, topic, batch) && sys.Place(topic) != P.Dlq
    ensures IsBatch(sys, st, SlotsOf(batch))
  {
    forall s | s in SlotsOf(batch) ensures s in st.recs && sys.Place(s.topic) != P.Dlq {
      var i :| 0 <= i < |batch| && SlotsOf(batch)[i] == s;
      assert batch[i] in batch;
    }
  }

  lemma EmptyBatch(st: St, topic: string)
    ensures FromLog(st, topic, []) && ResumesAtCommitted(st, SlotsOf([]))
  {
  }

  lemma BoundOf(s: set<nat>) returns (b: nat)
    ensures forall n :: n in s ==> n < b
  {
    b := 0;
    var todo := s;
    while todo != {}
      invariant forall n :: n in s ==> n in todo || n < b
      invariant todo <= s
      decreases todo
    {
      var n :| n in todo;
      if n >= b {
        b := n + 1;
      }
      todo := todo - {n};
    }
  }

  lemma EndExists(st: St, topic: string, part: nat)
    ensures exists offset: nat :: IsEnd(st, Slot(topic, part, offset))
  {
    var offsets := set r | r in st.recs :: r.offset;
    var b := BoundOf(offsets + {Committed(st, Part(topic, part))});
    forall r | r in st.recs ensures r.offset < b {
      assert r.offset in offsets;
    }
    assert IsEnd(st, Slot(topic, part, b));
  }

  class Cluster {
    const sys: Setup
    var st: St
    /** How many publishes this client has asked for. */
    ghost var sends: nat

    constructor (sys: Setup)
      requires sys.Good()
      ensures this.sys == sys && Valid()
      ensures st == Start()
    {
      this.sys := sys;
      this.st := Start();
      this.sends := 0;
    }

    ghost predicate Valid()
      reads this
    {
      sys.Good() && Inv(sys, st)
    }

    /** A copy published from `from` is in the log of `topic` and was not there in `before`. */
    ghost predicate Landed(before: St, from: Slot, topic: string, rec: H.Rec, cause: Cause)
      requires from in before.meta
      reads this
    {
      exists s :: s !in before.recs && s in st.recs && s in st.meta && s.topic == topic && st.recs[s] == rec
                  && st.meta[s] == NewMeta(sys, before, from, topic, cause)
    }

    /** At most one step, and what it keeps. */
    twostate predicate Stepped()
      reads this
    {
      Valid() && AtMostOneStep(sys, old(st), st) && Evolves(sys, old(st), st)
    }

    /** Any steps of the other consumers, producers and brokers. */
    method Interfere()
      requires Valid()
      modifies this`st
      ensures Valid() && Evolves(sys, old(st), st)
    {
      EvolvesSelf(sys, st);
    }

    /** PollFetches; the batch is one that resumes at the committed offset. */
    method Poll(topic: string) returns (batch: seq<Polled>)
      requires Valid() && sys.Place(topic) != P.Dlq
      modifies this`st
      ensures Stepped()
      ensures FromLog(st, topic, batch) && ResumesAtCommitted(st, SlotsOf(batch))
      ensures st == old(st).(polled := old(st).polled + {SlotsOf(batch)})
    {
      EmptyBatch(st, topic);
      batch :| FromLog(st, topic, batch) && ResumesAtCommitted(st, SlotsOf(batch));
      var slots := SlotsOf(batch);
      FromLogIsBatch(sys, st, topic, batch);
      EvolvesByStep(sys, st, KafkaCluster.Step.Poll(slots));
      assert Enabled(sys, st, KafkaCluster.Step.Poll(slots));
      st := st.(polled := st.polled + {slots});
    }

    /** An application's publish of a new message to the main topic. */
    method Originate(rec: H.Rec)
      requires Valid()
      modifies this`st
      ensures Stepped()
    {
      var part: nat := *;
      EndExists(st, sys.main, part);
      var offset: nat :| IsEnd(st, Slot(sys.main, part, offset));
      var s := Slot(sys.main, part, offset);
      assert Enabled(sys, st, KafkaCluster.Step.Originate(s, rec));
      EvolvesByStep(sys, st, KafkaCluster.Step.Originate(s, rec));
      st := Appended(st, s, rec, Meta(s, 0, P.Fresh));
    }

    /** The record is appended to some partition, with its acknowledgement or without. */
    method Accept(topic: string, rec: H.Rec, from: Slot, cause: Cause, acked: bool)
      requires Valid() && from in st.recs && from in st.meta
      requires MayPublish(sys, from, st.recs[from], topic, rec, cause)
      modifies this`st
      ensures Stepped() && Landed(old(st), from, topic, rec, cause) && (acked ==> from in st.settled)
    {
      var part: nat := *;
      EndExists(st, topic, part);
      var offset: nat :| IsEnd(st, Slot(topic, part, offset));
      var s := Slot(topic, part, offset);
      assert Enabled(sys, st, Send(from, s, rec, cause, acked));
      EvolvesByStep(sys, st, Send(from, s, rec, cause, acked));
      st := Sent(sys, st, from, s, rec, cause, acked);
      assert s !in old(st.recs) && s in st.recs && st.recs[s] == rec;
    }

    /**
     ProduceSync: the record is appended and acknowledged, appended without the acknowledgement
     arriving, or not appended. `from` and `cause` only feed the history variables.
     */
    method ProduceSync(topic: string, rec: H.Rec, from: Slot, cause: Cause) returns (err: Option<Error>)
      requires Valid() && from in st.recs && from in st.meta
      requires MayPublish(sys, from, st.recs[from], topic, rec, cause)
      modifies this`st, this`sends
      ensures Stepped() && sends == old(sends) + 1
      ensures err.None? ==> from in st.settled && Landed(old(st), from, topic, rec, cause)
    {
      sends := sends + 1;
      err := *;
      var lost := *;
      if err.Some? && lost {
        EvolvesSelf(sys, st);
        return;
      }
      Accept(topic, rec, from, cause, err.None?);
    }

    /** The application's handler returned nil for the record at `from`. */
    method MarkHandled(from: Slot)
      requires Valid() && from in st.recs && from in st.meta && from.topic == sys.main
      modifies this`st
      ensures Stepped()
      ensures from in st.settled && st.meta[from].origin in st.handled
    {
      assert Enabled(sys, st, Handled(from));
      EvolvesByStep(sys, st, Handled(from));
      st := Marked(st, from);
    }

    /**
     CommitRecords, for the first `k` records of a polled batch, each with an acknowledged outcome:
     takes effect or not, and may report an error in either case.
     */
    method CommitRecords(slots: seq<Slot>, ghost batch: seq<Slot>, ghost k: nat) returns (err: Option<Error>)
      requires Valid() && batch in st.polled && k <= |batch| && slots == batch[..k] && AllSettled(st, slots)
      modifies this`st
      ensures Stepped()
      ensures err.None? ==> st == CommitAll(old(st), slots)
    {
      err := *;
      var lost := *;
      if err.Some? && lost {
        EvolvesSelf(sys, st);
        return;
      }
      assert Enabled(sys, st, Commit(batch, k));
      EvolvesByStep(sys, st, Commit(batch, k));
      st := CommitAll(st, slots);
    }
  }
}
