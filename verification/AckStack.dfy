/** The reference count and the stack of acknowledgement blocks of one message
    (logmsg.c), together with the three acknowledgement callbacks that are
    installed on that stack: the source's (logsource.c), the center's
    (center.c) and a destination group's (dgroup.c).

    `Msg` is the value of a message; the `After...` functions say what each
    operation does to it. `LogMessage` is the mutable object whose methods are
    proved against those functions. */
module AckStack {

  /** Which stage pushed a block, and hence which callback it carries. */
  datatype Owner = SourceAck | CenterAck | GroupAck

  datatype Block = Block(owner: Owner, req: nat, ack: nat)

  /** `blocks[0]` is the top of the stack. `wakes` counts the runs of the
      source's callback and `frees` the runs of `log_msg_free`; `fault` records
      that the message was used although its reference count was zero, which
      is where the C code asserts or reads freed memory. */
  datatype Msg = Msg(source: nat, refs: nat, blocks: seq<Block>, wakes: nat, frees: nat, fault: bool)

  /** A message as `log_msg_new` leaves it. */
  function NewMsg(source: nat): Msg {
    Msg(source, 1, [], 0, 0, false)
  }

  function AfterRef(m: Msg): Msg {
    if m.refs == 0 then m.(fault := true) else m.(refs := m.refs + 1)
  }

  function AfterUnref(m: Msg): Msg {
    if m.refs == 0 then m.(fault := true)
    else m.(refs := m.refs - 1, frees := if m.refs == 1 then m.frees + 1 else m.frees)
  }

  function AfterInc(m: Msg): Msg {
    if m.refs == 0 then m.(fault := true)
    else if m.blocks == [] then m
    else m.(blocks := m.blocks[0 := m.blocks[0].(req := m.blocks[0].req + 1)])
  }

  function AfterStart(m: Msg, owner: Owner): Msg {
    if m.refs == 0 then m.(fault := true)
    else m.(blocks := [Block(owner, 1, 0)] + m.blocks)
  }

  function AfterEnd(m: Msg): Msg {
    if m.refs == 0 then m.(fault := true)
    else if m.blocks == [] then m
    else m.(blocks := m.blocks[1..])
  }

  /** Count one acknowledgement on the top block; a block that is then complete
      runs its callback, and the center's and the groups' callbacks acknowledge
      the block below in turn. */
  function AfterAck(m: Msg): Msg
    decreases |m.blocks|
  {
    if m.refs == 0 then m.(fault := true)
    else if m.blocks == [] then m
    else
      var top := m.blocks[0].(ack := m.blocks[0].ack + 1);
      var counted := m.(blocks := m.blocks[0 := top]);
      if top.ack != top.req then counted
      else if top.owner == SourceAck then
        AfterUnref(AfterEnd(counted).(wakes := counted.wakes + 1))
      else
        AfterUnref(AfterAck(AfterEnd(counted)))
  }

  /** `log_msg_drop` for a copy whose route is flow controlled or not. */
  function AfterDrop(m: Msg, flow: bool): Msg {
    AfterUnref(if flow then AfterAck(m) else m)
  }

  // ---------------------------------------------------------------------
  // The token argument
  // ---------------------------------------------------------------------

  /** Acknowledgements still missing, summed over all the blocks. */
  function Missing(blocks: seq<Block>): int {
    if blocks == [] then 0 else blocks[0].req - blocks[0].ack + Missing(blocks[1..])
  }

  /** The acknowledgements the stack still expects from outside: every block
      but the top one is itself waiting for one acknowledgement from above. */
  function Owed(blocks: seq<Block>): int {
    if blocks == [] then 0 else Missing(blocks) - (|blocks| - 1)
  }

  ghost predicate Unfinished(blocks: seq<Block>) {
    forall i :: 0 <= i < |blocks| ==> blocks[i].ack < blocks[i].req
  }

  /** The source's block is at the bottom, and no other block is the source's. */
  ghost predicate Bottomed(blocks: seq<Block>) {
    forall i :: 0 <= i < |blocks| ==> (blocks[i].owner == SourceAck <==> i == |blocks| - 1)
  }

  /** A stack of unfinished blocks owes at least one acknowledgement, whatever
      the counts of the single blocks are. */
  lemma {:induction false} UnfinishedOwes(blocks: seq<Block>)
    requires Unfinished(blocks)
    ensures Missing(blocks) >= |blocks|
    ensures Owed(blocks) >= 0
    ensures Owed(blocks) == 0 <==> blocks == []
  {
    if blocks != [] {
      forall i | 0 <= i < |blocks[1..]| ensures blocks[1..][i].ack < blocks[1..][i].req {
        assert blocks[1..][i] == blocks[i + 1];
      }
      UnfinishedOwes(blocks[1..]);
    }
  }

  /** One acknowledgement pays exactly one owed acknowledgement, wherever the
      counts sit; it empties the stack exactly when one was owed, and then
      (and only then) the source is told. The references held by the popped
      blocks are given back and no other. */
  lemma {:induction false} AckPaysOne(m: Msg)
    requires !m.fault && m.blocks != [] && m.refs >= |m.blocks|
    requires Unfinished(m.blocks) && Bottomed(m.blocks)
    ensures var r := AfterAck(m);
      && !r.fault && r.source == m.source
      && Unfinished(r.blocks) && Bottomed(r.blocks)
      && |r.blocks| <= |m.blocks|
      && Owed(r.blocks) == Owed(m.blocks) - 1
      && (r.blocks == [] <==> Owed(m.blocks) == 1)
      && r.refs - |r.blocks| == m.refs - |m.blocks|
      && r.wakes == m.wakes + (if r.blocks == [] then 1 else 0)
      && r.frees == m.frees + (if r.refs == 0 then 1 else 0)
    decreases |m.blocks|
  {
    var top := m.blocks[0].(ack := m.blocks[0].ack + 1);
    var rest := m.blocks[1..];
    assert m.blocks[0 := top] == [top] + rest;
    assert ([top] + rest)[1..] == rest;
    forall i | 0 <= i < |rest|
      ensures rest[i].ack < rest[i].req && (rest[i].owner == SourceAck <==> i == |rest| - 1)
    {
      assert rest[i] == m.blocks[i + 1];
    }
    UnfinishedOwes(rest);
    UnfinishedOwes(m.blocks);
    if top.ack != top.req {
      UnfinishedOwes([top] + rest);
    } else if top.owner == SourceAck {
      assert rest == [];
    } else {
      var below := m.(blocks := rest);
      assert AfterEnd(m.(blocks := m.blocks[0 := top])) == below;
      AckPaysOne(below);
    }
  }

  /** The place of an increment does not matter: pushing the counter of any
      block up owes one more acknowledgement. */
  lemma {:induction false} IncOwesOne(m: Msg)
    requires !m.fault && m.refs > 0 && m.blocks != []
    requires Unfinished(m.blocks) && Bottomed(m.blocks)
    ensures var r := AfterInc(m);
      && Unfinished(r.blocks) && Bottomed(r.blocks) && r.blocks != []
      && r == m.(blocks := r.blocks) && |r.blocks| == |m.blocks|
      && Owed(r.blocks) == Owed(m.blocks) + 1
  {
    var top := m.blocks[0].(req := m.blocks[0].req + 1);
    assert m.blocks[0 := top] == [top] + m.blocks[1..];
    assert ([top] + m.blocks[1..])[1..] == m.blocks[1..];
  }

  /** Pushing a block on a non-empty stack leaves the debt as it was: the new
      block's own acknowledgement replaces the one the block below waits for. */
  lemma {:induction false} StartOwesSame(m: Msg, owner: Owner)
    requires !m.fault && m.refs > 0
    requires Unfinished(m.blocks) && Bottomed(m.blocks)
    requires owner == SourceAck <==> m.blocks == []
    ensures var r := AfterStart(m, owner);
      && Unfinished(r.blocks) && Bottomed(r.blocks)
      && r == m.(blocks := r.blocks) && |r.blocks| == |m.blocks| + 1
      && Owed(r.blocks) == if m.blocks == [] then 1 else Owed(m.blocks)
  {
    var blocks := [Block(owner, 1, 0)] + m.blocks;
    assert blocks[1..] == m.blocks && Missing(blocks) == 1 + Missing(m.blocks);
  }

  // ---------------------------------------------------------------------
  // The bookkeeping of one message
  // ---------------------------------------------------------------------

  /** What holds of a message of which `copies` copies are queued, `flow` of
      them flow controlled, while running calls still have to acknowledge it
      `own` times and hold `held` references. */
  ghost predicate MsgOk(m: Msg, copies: nat, flow: nat, own: nat, held: nat) {
    && !m.fault
    && Unfinished(m.blocks) && Bottomed(m.blocks)
    && m.refs == |m.blocks| + copies + held
    && Owed(m.blocks) == flow + own
    && m.wakes == (if m.blocks == [] then 1 else 0)
    && m.frees == (if m.refs == 0 then 1 else 0)
  }

  lemma {:induction false} AckKeepsOk(m: Msg, copies: nat, flow: nat, own: nat, held: nat)
    requires MsgOk(m, copies, flow, own, held) && own > 0
    ensures MsgOk(AfterAck(m), copies, flow, own - 1, held)
    ensures AfterAck(m).source == m.source
    ensures m.blocks != []
    ensures AfterAck(m).wakes == m.wakes + (if AfterAck(m).blocks == [] then 1 else 0)
  {
    UnfinishedOwes(m.blocks);
    AckPaysOne(m);
  }

  lemma {:induction false} UnrefKeepsOk(m: Msg, copies: nat, flow: nat, own: nat, held: nat)
    requires MsgOk(m, copies, flow, own, held) && held > 0
    ensures MsgOk(AfterUnref(m), copies, flow, own, held - 1)
    ensures AfterUnref(m).source == m.source && AfterUnref(m).blocks == m.blocks
    ensures AfterUnref(m).wakes == m.wakes
  {
  }

  /** A copy that is given up pays its acknowledgement, if its route is flow
      controlled, and its reference. */
  lemma {:induction false} DropKeepsOk(
    m: Msg, controlled: bool, copies: nat, flow: nat, own: nat, held: nat)
    requires MsgOk(m, copies, flow, own, held) && held > 0 && (controlled ==> own > 0)
    ensures MsgOk(AfterDrop(m, controlled), copies, flow, if controlled then own - 1 else own, held - 1)
  {
    if controlled {
      AckKeepsOk(m, copies, flow, own, held);
      UnrefKeepsOk(AfterAck(m), copies, flow, own - 1, held);
    } else {
      UnrefKeepsOk(m, copies, flow, own, held);
    }
  }

  lemma {:induction false} RefKeepsOk(m: Msg, copies: nat, flow: nat, own: nat, held: nat)
    requires MsgOk(m, copies, flow, own, held) && own > 0
    ensures MsgOk(AfterRef(m), copies, flow, own, held + 1)
  {
    UnfinishedOwes(m.blocks);
  }

  lemma {:induction false} IncKeepsOk(m: Msg, copies: nat, flow: nat, own: nat, held: nat)
    requires MsgOk(m, copies, flow, own, held) && own > 0
    ensures MsgOk(AfterInc(m), copies, flow, own + 1, held)
    ensures AfterInc(m).blocks != [] && m.blocks != [] && AfterInc(m) == m.(blocks := AfterInc(m).blocks)
  {
    UnfinishedOwes(m.blocks);
    IncOwesOne(m);
  }

  lemma {:induction false} StartKeepsOk(m: Msg, owner: Owner, copies: nat, flow: nat, own: nat, held: nat)
    requires MsgOk(m, copies, flow, own, held) && own > 0 && held > 0
    requires owner != SourceAck
    ensures MsgOk(AfterStart(m, owner), copies, flow, own, held - 1)
    ensures m.blocks != []
  {
    UnfinishedOwes(m.blocks);
    StartOwesSame(m, owner);
  }

  /** In a state where no call is running, the source has been told about the
      message exactly if no flow-controlled copy of it is queued any more, it
      has been told at most once, and the message is freed exactly once, when
      nothing refers to it. */
  lemma {:induction false} SettledMeans(m: Msg, copies: nat, flow: nat)
    requires MsgOk(m, copies, flow, 0, 0)
    ensures m.wakes <= 1 && (m.wakes == 1 <==> flow == 0)
    ensures m.frees <= 1 && (m.frees == 1 <==> copies == 0 && flow == 0)
    ensures m.blocks == [] <==> flow == 0
  {
    UnfinishedOwes(m.blocks);
  }

  // ---------------------------------------------------------------------
  // The object
  // ---------------------------------------------------------------------

  class LogMessage {
    const source: nat
    var refCnt: nat
    var ackBlocks: seq<Block>
    ghost var wakes: nat
    ghost var frees: nat
    ghost var fault: bool

    ghost function View(): Msg
      reads this
    {
      Msg(source, refCnt, ackBlocks, wakes, frees, fault)
    }

    constructor (source: nat)
      ensures View() == NewMsg(source) && this.source == source
    {
      this.source := source;
      refCnt, ackBlocks := 1, [];
      wakes, frees, fault := 0, 0, false;
    }

    method Ref()
      modifies this
      ensures View() == AfterRef(old(View()))
    {
      if refCnt == 0 {
        fault := true;
      } else {
        refCnt := refCnt + 1;
      }
    }

    method Unref()
      modifies this
      ensures View() == AfterUnref(old(View()))
    {
      if refCnt == 0 {
        fault := true;
      } else {
        refCnt := refCnt - 1;
        if refCnt == 0 {
          frees := frees + 1;
        }
      }
    }

    method AckBlockInc()
      modifies this
      ensures View() == AfterInc(old(View()))
    {
      if refCnt == 0 {
        fault := true;
      } else if |ackBlocks| != 0 {
        var b := ackBlocks[0];
        ackBlocks := ackBlocks[0 := b.(req := b.req + 1)];
      }
    }

    method AckBlockStart(owner: Owner)
      modifies this
      ensures View() == AfterStart(old(View()), owner)
    {
      if refCnt == 0 {
        fault := true;
      } else {
        ackBlocks := [Block(owner, 1, 0)] + ackBlocks;
      }
    }

    method AckBlockEnd()
      modifies this
      ensures View() == AfterEnd(old(View()))
    {
      if refCnt == 0 {
        fault := true;
      } else if |ackBlocks| != 0 {
        ackBlocks := ackBlocks[1..];
      }
    }

    /** `woken` tells that the source's callback ran, so that its window has to
        be opened by one. */
    method Ack() returns (woken: bool)
      modifies this
      ensures View() == AfterAck(old(View()))
      ensures View().wakes == old(View()).wakes + (if woken then 1 else 0)
      decreases |ackBlocks|
    {
      woken := false;
      if refCnt == 0 {
        fault := true;
      } else if |ackBlocks| != 0 {
        var b := ackBlocks[0];
        b := b.(ack := b.ack + 1);
        ackBlocks := ackBlocks[0 := b];
        if b.ack == b.req {
          AckBlockEnd();
          match b.owner {
            case SourceAck =>
              wakes, woken := wakes + 1, true;
            case CenterAck =>
              woken := Ack();
            case GroupAck =>
              woken := Ack();
          }
          Unref();
        }
      }
    }

    method Drop(flow: bool) returns (woken: bool)
      modifies this
      ensures View() == AfterDrop(old(View()), flow)
      ensures View().wakes == old(View()).wakes + (if woken then 1 else 0)
    {
      woken := false;
      if flow {
        woken := Ack();
      }
      Unref();
    }
  }
}
