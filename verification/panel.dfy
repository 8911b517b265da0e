/**
 * What an e-Paper controller keeps from the transfers a driver sends: the
 * data bytes that follow a command, up to the next command, are that
 * command's arguments; for a RAM-write command they are the pixels stored.
 * This is the reading against which the drivers' transfer sequences are
 * checked.
 */
module Panel {
  import opened Common

  /**
   * The data bytes that follow any occurrence of `Cmd(c)` in `t`, in order;
   * `active` says whether the transfers before `t` left `c` selected.
   */
  function WrittenFrom(t: seq<Wire>, c: bv8, active: bool): seq<bv8>
    decreases |t|
  {
    if |t| == 0 then []
    else
      match t[0]
      case Cmd(x) => WrittenFrom(t[1..], c, x == c)
      case Data(d) => (if active then [d] else []) + WrittenFrom(t[1..], c, active)
  }

  /** Whether `c` is still selected after the transfers `t`. */
  function ActiveAfter(t: seq<Wire>, c: bv8, active: bool): bool
    decreases |t|
  {
    if |t| == 0 then active
    else
      match t[0]
      case Cmd(x) => ActiveAfter(t[1..], c, x == c)
      case Data(_) => ActiveAfter(t[1..], c, active)
  }

  /** The bytes written under command `c` by a whole transfer sequence. */
  function Written(t: seq<Wire>, c: bv8): seq<bv8>
  {
    WrittenFrom(t, c, false)
  }

  /** Reading a concatenation reads the parts in turn. */
  lemma {:induction false} WrittenAppend(a: seq<Wire>, b: seq<Wire>, c: bv8, active: bool)
    ensures WrittenFrom(a + b, c, active) == WrittenFrom(a, c, active) + WrittenFrom(b, c, ActiveAfter(a, c, active))
    ensures ActiveAfter(a + b, c, active) == ActiveAfter(b, c, ActiveAfter(a, c, active))
    decreases |a|
  {
    if |a| > 0 {
      assert (a + b)[1..] == a[1..] + b;
      match a[0]
      case Cmd(x) =>
        WrittenAppend(a[1..], b, c, x == c);
      case Data(d) =>
        WrittenAppend(a[1..], b, c, active);
    } else {
      assert a + b == b;
    }
  }

  /** A run of data transfers is stored exactly when the command is selected, and selects nothing. */
  lemma {:induction false} WrittenData(bytes: seq<bv8>, c: bv8, active: bool)
    ensures WrittenFrom(DataOf(bytes), c, active) == if active then bytes else []
    ensures ActiveAfter(DataOf(bytes), c, active) == active
    decreases |bytes|
  {
    if |bytes| > 0 {
      assert DataOf(bytes)[1..] == DataOf(bytes[1..]);
      WrittenData(bytes[1..], c, active);
    }
  }

  /** A command followed by its data stores the data under that command and nothing under another. */
  lemma CommandWithData(cmd: bv8, bytes: seq<bv8>, c: bv8, active: bool)
    ensures WrittenFrom([Cmd(cmd)] + DataOf(bytes), c, active) == if cmd == c then bytes else []
    ensures ActiveAfter([Cmd(cmd)] + DataOf(bytes), c, active) == (cmd == c)
  {
    assert ([Cmd(cmd)] + DataOf(bytes))[1..] == DataOf(bytes);
    WrittenData(bytes, c, cmd == c);
  }

  /** A lone command stores nothing and selects itself. */
  lemma LoneCommand(cmd: bv8, c: bv8, active: bool)
    ensures WrittenFrom([Cmd(cmd)], c, active) == []
    ensures ActiveAfter([Cmd(cmd)], c, active) == (cmd == c)
  {
    assert [Cmd(cmd)][1..] == [];
  }

  /** One command and the data bytes sent after it. */
  datatype Block = Block(cmd: bv8, data: seq<bv8>)

  /** The transfers of a sequence of blocks, each a command followed by its data. */
  function Transfers(blocks: seq<Block>): (t: seq<Wire>)
    ensures |t| == |blocks| + Sum(blocks)
    decreases |blocks|
  {
    if |blocks| == 0 then []
    else [Cmd(blocks[0].cmd)] + DataOf(blocks[0].data) + Transfers(blocks[1..])
  }

  /** The total number of data bytes of the blocks. */
  function Sum(blocks: seq<Block>): nat
    decreases |blocks|
  {
    if |blocks| == 0 then 0 else |blocks[0].data| + Sum(blocks[1..])
  }

  /** The data of the blocks under command `c`, in order. */
  function DataUnder(blocks: seq<Block>, c: bv8): seq<bv8>
    decreases |blocks|
  {
    if |blocks| == 0 then []
    else (if blocks[0].cmd == c then blocks[0].data else []) + DataUnder(blocks[1..], c)
  }

  /**
   * What a controller keeps under `c` from a block sequence is the data of
   * the blocks with command `c`, whatever was selected before.
   */
  lemma {:induction false} WrittenTransfers(blocks: seq<Block>, c: bv8, active: bool)
    requires |blocks| > 0
    ensures WrittenFrom(Transfers(blocks), c, active) == DataUnder(blocks, c)
    decreases |blocks|
  {
    var head := [Cmd(blocks[0].cmd)] + DataOf(blocks[0].data);
    assert Transfers(blocks) == head + Transfers(blocks[1..]);
    WrittenAppend(head, Transfers(blocks[1..]), c, active);
    CommandWithData(blocks[0].cmd, blocks[0].data, c, active);
    if |blocks| > 1 {
      WrittenTransfers(blocks[1..], c, blocks[0].cmd == c);
    } else {
      assert Transfers(blocks[1..]) == [];
      assert DataUnder(blocks[1..], c) == [];
    }
  }

  /** `Written` of a block sequence, the form the drivers' lemmas use. */
  lemma WrittenBlocks(blocks: seq<Block>, c: bv8)
    requires |blocks| > 0
    ensures Written(Transfers(blocks), c) == DataUnder(blocks, c)
  {
    WrittenTransfers(blocks, c, false);
  }

  /** No block has command `c`: nothing is stored under it. */
  lemma {:induction false} DataUnderNone(bs: seq<Block>, c: bv8)
    requires forall j :: 0 <= j < |bs| ==> bs[j].cmd != c
    ensures DataUnder(bs, c) == []
    decreases |bs|
  {
    if |bs| > 0 {
      DataUnderNone(bs[1..], c);
    }
  }

  /** Exactly one block, the `i`-th, has command `c`: its data is what is stored under `c`. */
  lemma {:induction false} DataUnderOnly(bs: seq<Block>, c: bv8, i: nat)
    requires i < |bs| && bs[i].cmd == c
    requires forall j :: 0 <= j < |bs| && j != i ==> bs[j].cmd != c
    ensures DataUnder(bs, c) == bs[i].data
    decreases |bs|
  {
    if i == 0 {
      DataUnderNone(bs[1..], c);
    } else {
      DataUnderOnly(bs[1..], c, i - 1);
    }
  }

  /** The blocks' transfers end with the last block's command when it carries no data. */
  lemma {:induction false} TransfersEnd(bs: seq<Block>)
    requires |bs| > 0 && bs[|bs| - 1].data == []
    ensures var t := Transfers(bs); |t| > 0 && t[|t| - 1] == Cmd(bs[|bs| - 1].cmd)
    decreases |bs|
  {
    if |bs| == 1 {
      assert DataOf(bs[0].data) == [];
      assert bs[1..] == [];
    } else {
      TransfersEnd(bs[1..]);
    }
  }

  /** Exactly one block, the `i`-th, has command `c`: the controller keeps its data under `c`. */
  lemma WrittenOnly(bs: seq<Block>, c: bv8, i: nat)
    requires i < |bs| && bs[i].cmd == c
    requires forall j :: 0 <= j < |bs| && j != i ==> bs[j].cmd != c
    ensures Written(Transfers(bs), c) == bs[i].data
  {
    WrittenBlocks(bs, c);
    DataUnderOnly(bs, c, i);
  }

  /** Storing is compositional over block sequences. */
  lemma {:induction false} DataUnderAppend(a: seq<Block>, b: seq<Block>, c: bv8)
    ensures DataUnder(a + b, c) == DataUnder(a, c) + DataUnder(b, c)
    decreases |a|
  {
    if |a| == 0 {
      assert a + b == b;
    } else {
      assert (a + b)[1..] == a[1..] + b;
      DataUnderAppend(a[1..], b, c);
    }
  }

  /** Framing blocks that store nothing under `c` leave what the middle blocks store. */
  lemma Framed(head: seq<Block>, body: seq<Block>, tail: seq<Block>, c: bv8)
    requires DataUnder(head, c) == [] && DataUnder(tail, c) == []
    requires |head + body + tail| > 0
    ensures Written(Transfers(head + body + tail), c) == DataUnder(body, c)
  {
    WrittenBlocks(head + body + tail, c);
    DataUnderAppend(head + body, tail, c);
    DataUnderAppend(head, body, c);
  }
}
