/** The SQS service as the consumers see it. Which of the allowed outcomes happens is not determined. */
module SqsClient {
  import opened Base
  import opened Headers
  import opened SqsBroker
  import A = SqsAttributes
  import P = Protocol

  /** A received message: `copy` says which one it is, the other fields are what the SDK returns. */
  datatype Message = Message(copy: nat, body: Option<string>, attrs: A.Attrs, receipt: Option<nat>)

  function Body(m: Message): string { if m.body.Some? then m.body.value else "" }

  /** A message of the queue at `url`, delivered for the first time or again. */
  predicate IsReceived(st: St, url: string, m: Message) {
    && m.copy in st.log && m.copy in st.meta
    && st.log[m.copy].url == url && st.log[m.copy].body == Body(m) && st.log[m.copy].attrs == m.attrs
    && (m.receipt.Some? ==> m.receipt.value == m.copy)
  }

  lemma FreshExists(s: set<nat>)
    ensures exists c: nat :: c !in s
  {
    var b := Bound(s);
    assert b !in s;
  }

  lemma Bound(s: set<nat>) returns (b: nat)
    ensures forall n :: n in s ==> n < b
  {
    if s == {} {
      b := 0;
    } else {
      var n :| n in s;
      b := Bound(s - {n});
      b := if n < b then b else n + 1;
      assert forall k :: k in s ==> k == n || k in s - {n};
    }
  }

  class Broker {
    const sys: Setup
    var st: St
    /** How many sends this client has asked for, and the deletions, by receipt. */
    ghost var sends: nat
    ghost var asked: seq<nat>

    constructor (sys: Setup)
      requires sys.Good()
      ensures this.sys == sys && Valid()
      ensures st == Start()
    {
      this.sys := sys;
      this.st := Start();
      this.sends, this.asked := 0, [];
    }

    ghost predicate Valid()
      reads this
    {
      sys.Good() && Inv(sys, st)
    }

    /** At most one step, and what it keeps. */
    twostate predicate Stepped()
      reads this
    {
      Valid() && AtMostOneStep(sys, old(st), st) && Evolves(sys, old(st), st)
    }

    /** Any steps of the other consumers, producers and the service. */
    method Interfere()
      requires Valid()
      modifies this`st
      ensures Valid() && Evolves(sys, old(st), st)
    {
      EvolvesSelf(sys, st);
    }

    method ReceiveMessage(url: string) returns (msgs: seq<Message>)
      requires Valid()
      ensures forall m :: m in msgs ==> IsReceived(st, url, m)
    {
      assert forall m: Message :: m in [] ==> IsReceived(st, url, m);
      msgs :| forall m :: m in msgs ==> IsReceived(st, url, m);
    }

    /** An application's publish of a new message to the main queue. */
    method Originate(body: string, attrs: A.Attrs)
      requires Valid()
      modifies this`st
      ensures Stepped()
    {
      FreshExists(st.log.Keys);
      var c: nat :| c !in st.log;
      assert Enabled(sys, st, SqsBroker.Step.Originate(c, body, attrs));
      EvolvesByStep(sys, st, SqsBroker.Step.Originate(c, body, attrs));
      st := Appended(st, c, Msg(sys.Main(), body, attrs, 0), Meta(c, 0, P.Fresh));
    }

    /** Since `before`, a copy of the message at `from` was sent that way. */
    ghost predicate Landed(before: St, from: nat, msg: Msg, cause: Cause)
      requires from in before.meta
      reads this
    {
      exists c :: c !in before.log && c in st.log && c in st.meta && st.log[c] == msg
                  && st.meta[c] == MovedMeta(before.meta[from], cause)
    }

    /** The message is stored, with its acknowledgement or without. */
    method Accept(msg: Msg, from: nat, cause: Cause, acked: bool)
      requires Valid() && from in st.log && from in st.meta && MaySend(sys, st.log[from], msg, cause)
      modifies this`st
      ensures Stepped() && Landed(old(st), from, msg, cause) && (acked ==> from in st.settled)
    {
      FreshExists(st.log.Keys);
      var c: nat :| c !in st.log;
      assert Enabled(sys, st, Send(from, c, msg, cause, acked));
      EvolvesByStep(sys, st, Send(from, c, msg, cause, acked));
      st := Sent(st, from, c, msg, cause, acked);
      assert c !in old(st.log) && c in st.log && st.log[c] == msg;
    }

    /**
     SendMessage: stored and acknowledged, stored without the acknowledgement arriving, or not
     stored. `from` and `cause` only feed the history variables.
     */
    method SendMessage(msg: Msg, from: nat, cause: Cause) returns (err: Option<Error>)
      requires Valid() && from in st.log && from in st.meta && MaySend(sys, st.log[from], msg, cause)
      modifies this`st, this`sends
      ensures Stepped() && sends == old(sends) + 1
      ensures err.None? ==> from in st.settled && Landed(old(st), from, msg, cause)
    {
      sends := sends + 1;
      err := *;
      var lost := *;
      if err.Some? && lost {
        EvolvesSelf(sys, st);
        return;
      }
      Accept(msg, from, cause, err.None?);
    }

    /** The application's handler returned nil. */
    method MarkHandled(from: nat)
      requires Valid() && from in st.log && from in st.meta && st.log[from].url == sys.Main()
      modifies this`st
      ensures Stepped()
      ensures from in st.settled && st.meta[from].origin in st.handled
    {
      assert Enabled(sys, st, Handled(from));
      EvolvesByStep(sys, st, Handled(from));
      st := Marked(st, from);
    }

    /**
     DeleteMessage: takes effect or not, and may report an error in either case. A receipt of an
     earlier delivery may be accepted without effect.
     */
    method DeleteMessage(receipt: nat) returns (err: Option<Error>)
      requires Valid() && receipt in st.settled
      modifies this`st, this`asked
      ensures Stepped() && asked == old(asked) + [receipt]
      ensures st == old(st) || st == old(st).(live := old(st).live - {receipt})
    {
      asked := asked + [receipt];
      err := *;
      var lost := *;
      if lost {
        EvolvesSelf(sys, st);
        return;
      }
      assert Enabled(sys, st, Delete(receipt));
      EvolvesByStep(sys, st, Delete(receipt));
      st := st.(live := st.live - {receipt});
    }
  }
}
