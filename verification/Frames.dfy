/** Frames on the line: what `gp_send` builds and what a device answers with. */
module Frames {
  import opened LibGate
  import opened Crc8
  import opened Stuffing

  /** dst, cmd_n, the command bytes and their checksum, which does not cover dst. */
  function RequestBody(cmd: Cmd): (s: seq<Byte>)
    ensures |s| == |cmd.data| + 3
  {
    [cmd.dst, cmd.cmdN] + cmd.data + [Xor([cmd.cmdN] + cmd.data)]
  }

  function RequestFrame(cmd: Cmd): (f: seq<Byte>)
    ensures |f| <= 2 * (|cmd.data| + 3) + 3
  {
    [GP_INIT, GP_CTRL] + Esc(RequestBody(cmd)) + [GP_END]
  }

  /** The condition under which `gp_send` stays inside its buffer for any bytes. */
  predicate Sendable(cmd: Cmd) {
    2 * (|cmd.data| + 3) + 3 <= SEND_BUF_LENGTH
  }

  /** Both flags appear once, at the ends. */
  lemma RequestFlags(cmd: Cmd)
    ensures var f := RequestFrame(cmd);
            f[0] == GP_INIT && f[|f| - 1] == GP_END &&
            forall i :: 0 < i < |f| - 1 ==> f[i] != GP_INIT && f[i] != GP_END
  {
    var m := Esc(RequestBody(cmd));
    var f := RequestFrame(cmd);
    forall i | 0 < i < |f| - 1
      ensures f[i] != GP_INIT && f[i] != GP_END
    {
      if i > 1 {
        assert f[i] == m[i - 2] && m[i - 2] in m;
      }
    }
  }

  /** Undoing the stuffing after the two header bytes gives destination, command number, the
      command's bytes and the checksum over all but the destination. */
  lemma RequestDecodes(cmd: Cmd)
    ensures var bytes := [cmd.dst, cmd.cmdN] + cmd.data + [Xor([cmd.cmdN] + cmd.data)];
            Scan(RequestFrame(cmd), 2, |cmd.data| + 3) == Decoded(bytes, Specials(bytes))
  {
    var body := RequestBody(cmd);
    assert RequestFrame(cmd) == [GP_INIT, GP_CTRL] + (Esc(body) + [GP_END]);
    ScanShift([GP_INIT, GP_CTRL], Esc(body) + [GP_END], 2, |body|);
    ScanEsc(body, [GP_END], 0);
    assert body + [] == body;
  }

  /** The region with byte `i` replaced sums to zero only if nothing was changed. */
  predicate Detects(region: seq<Byte>, i: nat, b: Byte)
    requires i < |region|
  {
    Xor(region[i := b]) == 0 <==> b == region[i]
  }

  /** The checked region cmd_n..checksum sums to zero, and any change of one byte in it
      is noticed. */
  lemma RequestChecked(cmd: Cmd)
    ensures var region := RequestBody(cmd)[1..];
            Xor(region) == 0 && forall i: nat, b: Byte | i < |region| :: Detects(region, i, b)
  {
    var sum, region := [cmd.cmdN] + cmd.data, RequestBody(cmd)[1..];
    assert region == sum + [Xor(sum)];
    ChecksumCloses(sum, Xor(sum));
    forall i: nat, b: Byte | i < |region|
      ensures Detects(region, i, b)
    {
      SingleByteDetected(region, i, b);
    }
  }

  /** A frame determines the destination, command number and bytes it was built from. */
  lemma RequestFrameInjective(c: Cmd, d: Cmd)
    requires RequestFrame(c) == RequestFrame(d)
    ensures c.dst == d.dst && c.cmdN == d.cmdN && c.data == d.data
  {
    var x, y := RequestBody(c), RequestBody(d);
    assert RequestFrame(c)[2..|RequestFrame(c)| - 1] == Esc(x);
    assert RequestFrame(d)[2..|RequestFrame(d)| - 1] == Esc(y);
    EscInjective(x, y);
    assert c.dst == x[0] && d.dst == y[0] && c.cmdN == x[1] && d.cmdN == y[1];
    assert c.data == x[2..|x| - 1] && d.data == y[2..|y| - 1];
  }

  lemma {:induction false} EscInjective(x: seq<Byte>, y: seq<Byte>)
    requires Esc(x) == Esc(y)
    ensures x == y
  {
    if x != [] && y != [] {
      assert EscByte(x[0])[0] == Esc(x)[0] == Esc(y)[0] == EscByte(y[0])[0];
      if Special(x[0]) && Special(y[0]) {
        assert EscByte(x[0])[1] == Esc(x)[1] == Esc(y)[1] == EscByte(y[0])[1];
      }
      assert x[0] == y[0];
      var n := |EscByte(x[0])|;
      assert Esc(x[1..]) == Esc(x)[n..] == Esc(y)[n..] == Esc(y[1..]);
      EscInjective(x[1..], y[1..]);
      assert x == [x[0]] + x[1..] && y == [y[0]] + y[1..];
    }
  }

  /** A device's frame: the main id and the host's address, then the stuffed body
      id_ctrl, src, cmd_n, payload, checksum. */
  function ReplyFrame(idMain: Byte, host: Byte, body: seq<Byte>): seq<Byte> {
    [GP_INIT, idMain, host] + Esc(body) + [GP_END]
  }

  function ReplyBody(idCtrl: Byte, src: Byte, cmdN: Byte, payload: seq<Byte>): (s: seq<Byte>)
    ensures |s| == |payload| + 4
  {
    [idCtrl, src, cmdN] + payload + [Xor([idCtrl, src, cmdN] + payload)]
  }
}
