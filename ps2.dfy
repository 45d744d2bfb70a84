/** The PS/2 driver (grund-device/ps2.cpp): the i8042 controller's polled
    register access, the keyboard's scan-code decoder with its 0xE0 escape
    state, and the mouse's packet assembler.

    The controller's ports are modelled as one stream of bytes, `input`,
    that successive reads of the status and data registers return in turn;
    a read once the stream is exhausted is an I/O failure. Writes always
    succeed. Every register access is appended to `trace`, so contracts
    speak about the exact sequence of accesses a call made. */
module Ps2 {
  import opened Wrappers
  import opened Ps2Defs

  /* ---- register accesses ------------------------------------------- */

  /** One access to a controller register and the byte it moved. */
  datatype Access =
    | StatusRead(value: byte)
    | DataRead(value: byte)
    | CmdWrite(value: byte)
    | DataWrite(value: byte)

  /** The bytes the accesses of `t` read, in order: all reads, or only
      data-register reads when `dataOnly`. */
  function Values(t: seq<Access>, dataOnly: bool): (r: seq<byte>)
    ensures |r| <= |t|
  {
    if t == [] then []
    else
      var a := t[|t| - 1];
      Values(t[..|t| - 1], dataOnly)
      + (if a.DataRead? || (a.StatusRead? && !dataOnly) then [a.value] else [])
  }

  /** The bytes `t` took from the port stream. */
  function Reads(t: seq<Access>): seq<byte>
  {
    Values(t, false)
  }

  /** The bytes `t` read from the data register. */
  function DataIn(t: seq<Access>): seq<byte>
  {
    Values(t, true)
  }

  lemma {:induction false} ValuesAppend(a: seq<Access>, b: seq<Access>, dataOnly: bool)
    ensures Values(a + b, dataOnly) == Values(a, dataOnly) + Values(b, dataOnly)
    decreases |b|
  {
    if b == [] {
      assert a + b == a;
    } else {
      assert (a + b)[..|a + b| - 1] == a + b[..|b| - 1];
      assert (a + b)[|a + b| - 1] == b[|b| - 1];
      ValuesAppend(a, b[..|b| - 1], dataOnly);
    }
  }

  /** Both projections of `a + b` split at the seam. */
  lemma Split(a: seq<Access>, b: seq<Access>)
    ensures Reads(a + b) == Reads(a) + Reads(b)
    ensures DataIn(a + b) == DataIn(a) + DataIn(b)
  {
    ValuesAppend(a, b, false);
    ValuesAppend(a, b, true);
  }

  /** Going from trace `tr0` and pending input `in0` to `tr1` and `in1`,
      the accesses `t` were made and they took their reads from the front
      of the input. */
  predicate Step(tr0: seq<Access>, in0: seq<byte>, t: seq<Access>, tr1: seq<Access>, in1: seq<byte>)
  {
    tr1 == tr0 + t && in0 == Reads(t) + in1
  }

  /** Two steps make one. */
  lemma Chain(tr0: seq<Access>, in0: seq<byte>, t: seq<Access>, tr1: seq<Access>, in1: seq<byte>,
              u: seq<Access>, tr2: seq<Access>, in2: seq<byte>)
    requires Step(tr0, in0, t, tr1, in1) && Step(tr1, in1, u, tr2, in2)
    ensures Step(tr0, in0, t + u, tr2, in2)
    ensures DataIn(t + u) == DataIn(t) + DataIn(u)
  {
    Split(t, u);
  }

  /* ---- polling ------------------------------------------------------ */

  /** `waitRead` and `waitWrite` give up after this many status polls. */
  const POLL_LIMIT: nat := 100000

  /** A status lets a read through when OUT_BUF is set, a write when
      IN_BUF is clear. */
  predicate Ready(status: byte, forWrite: bool)
  {
    if forWrite then !Has(status, IN_BUF) else Has(status, OUT_BUF)
  }

  /** `t` is status polls, none of them ready. */
  predicate Polls(t: seq<Access>, forWrite: bool)
  {
    forall i :: 0 <= i < |t| ==> t[i].StatusRead? && !Ready(t[i].value, forWrite)
  }

  /** A successful wait: at most POLL_LIMIT status polls, the last one the
      first that is ready. */
  predicate Waited(t: seq<Access>, forWrite: bool)
  {
    1 <= |t| <= POLL_LIMIT && Polls(t[..|t| - 1], forWrite)
    && t[|t| - 1].StatusRead? && Ready(t[|t| - 1].value, forWrite)
  }

  /** A write that waited for IN_BUF to clear, then wrote `a`. */
  predicate Sent(t: seq<Access>, a: Access)
  {
    1 <= |t| && Waited(t[..|t| - 1], true) && t[|t| - 1] == a
  }

  /** A data read that waited for OUT_BUF, then read `v`. */
  predicate Got(t: seq<Access>, v: byte)
  {
    1 <= |t| && Waited(t[..|t| - 1], false) && t[|t| - 1] == DataRead(v)
  }

  /** Polls read no data. */
  lemma {:induction false} PollsReadNoData(t: seq<Access>, forWrite: bool)
    requires Polls(t, forWrite)
    ensures DataIn(t) == []
    decreases |t|
  {
    if t != [] {
      assert Polls(t[..|t| - 1], forWrite);
      PollsReadNoData(t[..|t| - 1], forWrite);
    }
  }

  /** A polled data read reads exactly its byte from the data register. */
  lemma GotReadsOneByte(t: seq<Access>, v: byte)
    requires Got(t, v)
    ensures DataIn(t) == [v]
    ensures |Reads(t)| >= 1
  {
    var w := t[..|t| - 1];
    assert t == w + [DataRead(v)];
    assert Waited(w, false);
    assert Polls(w[..|w| - 1], false);
    PollsReadNoData(w[..|w| - 1], false);
    assert w == w[..|w| - 1] + [w[|w| - 1]];
    Split(w[..|w| - 1], [w[|w| - 1]]);
    Split(w, [DataRead(v)]);
  }

  /* ---- draining loops ----------------------------------------------- */

  /** Which bytes a draining loop consumes: any pending byte (`flush`),
      bytes from the main port (keyboard) or from the auxiliary port
      (mouse). */
  datatype Port = AnyPort | MainPort | AuxPort

  /** The loop condition of each draining loop. */
  predicate Pending(status: byte, p: Port)
  {
    match p
    case AnyPort => Has(status, OUT_BUF)
    case MainPort => Has(status, OUT_BUF) && !Has(status, AUX_BUF)
    case AuxPort => Has(status, OUT_BUF) && Has(status, AUX_BUF)
  }

  /** One turn of a draining loop: a status read that lets the loop
      continue, then a polled data read. */
  predicate Round(r: seq<Access>, p: Port)
  {
    2 <= |r| && r[0].StatusRead? && Pending(r[0].value, p) && Got(r[1..], r[|r| - 1].value)
  }

  /** The turns of a loop, one after the other. */
  function Concat(rounds: seq<seq<Access>>): seq<Access>
  {
    if rounds == [] then [] else Concat(rounds[..|rounds| - 1]) + rounds[|rounds| - 1]
  }

  lemma ConcatSnoc(rounds: seq<seq<Access>>, r: seq<Access>)
    ensures Concat(rounds + [r]) == Concat(rounds) + r
  {
    assert (rounds + [r])[..|rounds|] == rounds;
  }

  /** Every element of `rounds` is a turn. */
  predicate Turns(rounds: seq<seq<Access>>, p: Port)
  {
    forall i :: 0 <= i < |rounds| ==> Round(rounds[i], p)
  }

  /** A draining loop between turns: the turns `rounds` so far, then the
      status read that decides whether it goes on. */
  predicate Draining(t: seq<Access>, rounds: seq<seq<Access>>, status: byte, p: Port)
  {
    t == Concat(rounds) + [StatusRead(status)] && Turns(rounds, p)
  }

  /** One more turn of a draining loop: after the status read that let it
      go on come the polled data read `t1` and the next status read `t2`. */
  lemma NextRound(t: seq<Access>, rounds: seq<seq<Access>>, status: byte, t1: seq<Access>, v: byte,
                  t2: seq<Access>, status2: byte, p: Port)
    requires Draining(t, rounds, status, p) && Pending(status, p) && Got(t1, v)
    requires t2 == [StatusRead(status2)]
    ensures Draining(t + t1 + t2, rounds + [[StatusRead(status)] + t1], status2, p)
  {
    var round := [StatusRead(status)] + t1;
    assert round[1..] == t1;
    assert Round(round, p);
    ConcatSnoc(rounds, round);
    var c := Concat(rounds);
    calc {
      t + t1 + t2;
      c + [StatusRead(status)] + t1 + t2;
      { assert c + [StatusRead(status)] + t1 == c + round; }
      c + round + t2;
    }
    var all := rounds + [round];
    forall i | 0 <= i < |all|
      ensures Round(all[i], p)
    {
      if i < |rounds| {
        assert all[i] == rounds[i];
      }
    }
  }

  /** The byte each turn read from the data register. */
  function LastBytes(rounds: seq<seq<Access>>): seq<byte>
  {
    seq(|rounds|, i requires 0 <= i < |rounds| =>
      if rounds[i] == [] then 0 else rounds[i][|rounds[i]| - 1].value)
  }

  /** A draining loop that ran to completion: the turns `rounds`, then a
      final status read that stops the loop. */
  predicate Drained(t: seq<Access>, p: Port, rounds: seq<seq<Access>>)
  {
    1 <= |t| && t[..|t| - 1] == Concat(rounds)
    && Turns(rounds, p)
    && t[|t| - 1].StatusRead? && !Pending(t[|t| - 1].value, p)
  }

  /** A draining loop stops at a status read that does not let it go on. */
  lemma Stopped(t: seq<Access>, rounds: seq<seq<Access>>, status: byte, p: Port)
    requires Draining(t, rounds, status, p) && !Pending(status, p)
    ensures Drained(t, p, rounds)
  {
    assert t[..|t| - 1] == Concat(rounds);
  }

  /** A drained loop read from the data register exactly one byte per
      turn, each announced by a status read that let the loop go on. */
  lemma {:induction false} DrainedReadsOneBytePerTurn(t: seq<Access>, p: Port, rounds: seq<seq<Access>>)
    requires Drained(t, p, rounds)
    ensures DataIn(t) == LastBytes(rounds)
  {
    RoundsData(rounds, p);
    assert t == Concat(rounds) + [t[|t| - 1]];
    Split(Concat(rounds), [t[|t| - 1]]);
    assert DataIn([t[|t| - 1]]) == [];
  }

  lemma {:induction false} RoundsData(rounds: seq<seq<Access>>, p: Port)
    requires Turns(rounds, p)
    ensures DataIn(Concat(rounds)) == LastBytes(rounds)
    decreases |rounds|
  {
    if rounds != [] {
      var n := |rounds| - 1;
      var r := rounds[n];
      RoundsData(rounds[..n], p);
      assert Round(r, p);
      RoundData(r, p);
      Split(Concat(rounds[..n]), r);
      LastBytesSnoc(rounds);
    }
  }

  lemma LastBytesSnoc(rounds: seq<seq<Access>>)
    requires rounds != []
    ensures var n := |rounds| - 1;
      LastBytes(rounds) == LastBytes(rounds[..n]) + LastBytes([rounds[n]])
  {
  }

  /** One turn reads one byte, its last access. */
  lemma RoundData(r: seq<Access>, p: Port)
    requires Round(r, p)
    ensures DataIn(r) == [r[|r| - 1].value]
  {
    GotReadsOneByte(r[1..], r[|r| - 1].value);
    assert r == [r[0]] + r[1..];
    Split([r[0]], r[1..]);
    assert DataIn([r[0]]) == [];
  }

  /* ---- the controller ----------------------------------------------- */

  /** The i8042 controller (`I8042`). */
  class I8042 {
    /** Bytes the next reads of the status or data register return. */
    var input: seq<byte>
    /** Every register access made so far. */
    var trace: seq<Access>

    constructor (input: seq<byte>)
      ensures this.input == input && trace == []
    {
      this.input := input;
      trace := [];
    }

    /** `readStatus`: one read of the status register. */
    method ReadStatus() returns (r: Result<byte>, ghost t: seq<Access>)
      modifies this
      ensures Step(old(trace), old(input), t, trace, input)
      ensures r.Ok? <==> old(input) != []
      ensures r.Ok? ==> t == [StatusRead(r.value)]
      ensures r.Err? ==> r.error == IoFault && t == []
      ensures DataIn(t) == []
    {
      if input == [] {
        return Err(IoFault), [];
      }
      var v := input[0];
      input := input[1..];
      t := [StatusRead(v)];
      trace := trace + [StatusRead(v)];
      assert t[..0] == [];
      return Ok(v), t;
    }

    /** `waitRead`: polls the status until OUT_BUF is set, at most
        POLL_LIMIT times. */
    method WaitRead() returns (r: Result<()>, ghost t: seq<Access>)
      modifies this
      ensures Step(old(trace), old(input), t, trace, input)
      ensures r.Ok? <==> Waited(t, false)
      ensures r.Err? ==> Polls(t, false)
      ensures r.Err? ==> (r.error == TimedOut && |t| == POLL_LIMIT)
                         || (r.error == IoFault && input == [] && |t| < POLL_LIMIT)
    {
      var timeout: nat := POLL_LIMIT;
      t := [];
      while timeout > 0
        invariant timeout <= POLL_LIMIT && |t| == POLL_LIMIT - timeout
        invariant Polls(t, false)
        invariant trace == old(trace) + t && old(input) == Reads(t) + input
      {
        timeout := timeout - 1;
        var s, t1 := ReadStatus();
        Split(t, t1);
        ghost var before := t;
        t := t + t1;
        if s.Err? {
          return Err(s.error), t;
        }
        assert t[..|t| - 1] == before;
        if Has(s.value, OUT_BUF) {
          return Ok(()), t;
        }
      }
      return Err(TimedOut), t;
    }

    /** `waitWrite`: polls the status until IN_BUF is clear, at most
        POLL_LIMIT times. */
    method WaitWrite() returns (r: Result<()>, ghost t: seq<Access>)
      modifies this
      ensures Step(old(trace), old(input), t, trace, input)
      ensures r.Ok? <==> Waited(t, true)
      ensures r.Err? ==> Polls(t, true)
      ensures r.Err? ==> (r.error == TimedOut && |t| == POLL_LIMIT)
                         || (r.error == IoFault && input == [] && |t| < POLL_LIMIT)
    {
      var timeout: nat := POLL_LIMIT;
      t := [];
      while timeout > 0
        invariant timeout <= POLL_LIMIT && |t| == POLL_LIMIT - timeout
        invariant Polls(t, true)
        invariant trace == old(trace) + t && old(input) == Reads(t) + input
      {
        timeout := timeout - 1;
        var s, t1 := ReadStatus();
        Split(t, t1);
        ghost var before := t;
        t := t + t1;
        if s.Err? {
          return Err(s.error), t;
        }
        assert t[..|t| - 1] == before;
        if !Has(s.value, IN_BUF) {
          return Ok(()), t;
        }
      }
      return Err(TimedOut), t;
    }

    /** `readData`: waits for OUT_BUF, then reads the data register. */
    method ReadData() returns (r: Result<byte>, ghost t: seq<Access>)
      modifies this
      ensures Step(old(trace), old(input), t, trace, input)
      ensures r.Ok? ==> Got(t, r.value) && DataIn(t) == [r.value] && |input| < |old(input)|
      ensures r.Err? ==> DataIn(t) == []
      ensures r.Err? ==> (Polls(t, false) && r.error in {TimedOut, IoFault})
                         || (Waited(t, false) && r.error == IoFault && input == [])
    {
      var w;
      w, t := WaitRead();
      if w.Err? {
        PollsReadNoData(t, false);
        return Err(w.error), t;
      }
      assert Polls(t[..|t| - 1], false);
      PollsReadNoData(t[..|t| - 1], false);
      assert t == t[..|t| - 1] + [t[|t| - 1]];
      Split(t[..|t| - 1], [t[|t| - 1]]);
      if input == [] {
        return Err(IoFault), t;
      }
      var v := input[0];
      input := input[1..];
      Split(t, [DataRead(v)]);
      t := t + [DataRead(v)];
      trace := trace + [DataRead(v)];
      GotReadsOneByte(t, v);
      return Ok(v), t;
    }

    /** `writeData`: waits for IN_BUF to clear, then writes the data
        register. */
    method WriteData(data: byte) returns (r: Result<()>, ghost t: seq<Access>)
      modifies this
      ensures Step(old(trace), old(input), t, trace, input)
      ensures r.Ok? <==> Sent(t, DataWrite(data))
      ensures r.Err? ==> Polls(t, true) && r.error in {TimedOut, IoFault}
      ensures DataIn(t) == []
    {
      var w;
      w, t := WaitWrite();
      if w.Err? {
        PollsReadNoData(t, true);
        return Err(w.error), t;
      }
      assert Polls(t[..|t| - 1], true);
      PollsReadNoData(t[..|t| - 1], true);
      assert t == t[..|t| - 1] + [t[|t| - 1]];
      Split(t[..|t| - 1], [t[|t| - 1]]);
      Split(t, [DataWrite(data)]);
      t := t + [DataWrite(data)];
      trace := trace + [DataWrite(data)];
      return Ok(()), t;
    }

    /** `writeCmd`: waits for IN_BUF to clear, then writes the command
        register. */
    method WriteCmd(cmd: byte) returns (r: Result<()>, ghost t: seq<Access>)
      modifies this
      ensures Step(old(trace), old(input), t, trace, input)
      ensures r.Ok? <==> Sent(t, CmdWrite(cmd))
      ensures r.Err? ==> Polls(t, true) && r.error in {TimedOut, IoFault}
      ensures DataIn(t) == []
    {
      var w;
      w, t := WaitWrite();
      if w.Err? {
        PollsReadNoData(t, true);
        return Err(w.error), t;
      }
      assert Polls(t[..|t| - 1], true);
      PollsReadNoData(t[..|t| - 1], true);
      assert t == t[..|t| - 1] + [t[|t| - 1]];
      Split(t[..|t| - 1], [t[|t| - 1]]);
      Split(t, [CmdWrite(cmd)]);
      t := t + [CmdWrite(cmd)];
      trace := trace + [CmdWrite(cmd)];
      return Ok(()), t;
    }

    /** `writeConfig`: the WRITE_CONFIG command, then the configuration
        byte. */
    method WriteConfig(cfg: byte) returns (r: Result<()>, ghost t: seq<Access>, ghost a: seq<Access>, ghost b: seq<Access>)
      modifies this
      ensures Step(old(trace), old(input), t, trace, input)
      ensures r.Ok? ==> t == a + b && Sent(a, CmdWrite(WRITE_CONFIG)) && Sent(b, DataWrite(cfg))
      ensures r.Err? ==> r.error in {TimedOut, IoFault}
      ensures DataIn(t) == []
    {
      var c, t1 := WriteCmd(WRITE_CONFIG);
      t, a, b := t1, t1, [];
      if c.Err? {
        return Err(c.error), t, a, b;
      }
      var d, t2 := WriteData(cfg);
      Split(t1, t2);
      t, b := t1 + t2, t2;
      if d.Err? {
        return Err(d.error), t, a, b;
      }
      return Ok(()), t, a, b;
    }

    /** `readConfig`: the READ_CONFIG command, then a data read. */
    method ReadConfig() returns (r: Result<byte>, ghost t: seq<Access>, ghost a: seq<Access>, ghost b: seq<Access>)
      modifies this
      ensures Step(old(trace), old(input), t, trace, input)
      ensures r.Ok? ==> t == a + b && Sent(a, CmdWrite(READ_CONFIG)) && Got(b, r.value)
      ensures r.Ok? ==> DataIn(t) == [r.value]
      ensures r.Err? ==> r.error in {TimedOut, IoFault} && DataIn(t) == []
    {
      var c, t1 := WriteCmd(READ_CONFIG);
      t, a, b := t1, t1, [];
      if c.Err? {
        return Err(c.error), t, a, b;
      }
      var d, t2 := ReadData();
      Split(t1, t2);
      t, b := t1 + t2, t2;
      if d.Err? {
        return Err(d.error), t, a, b;
      }
      return Ok(d.value), t, a, b;
    }

    /** `flush`: reads and discards data for as long as the status shows
        OUT_BUF. */
    method Flush() returns (r: Result<()>, ghost t: seq<Access>, ghost rounds: seq<seq<Access>>)
      modifies this
      ensures Step(old(trace), old(input), t, trace, input)
      ensures r.Ok? ==> Drained(t, AnyPort, rounds)
      ensures r.Err? ==> r.error in {TimedOut, IoFault}
    {
      var s;
      s, t := ReadStatus();
      rounds := [];
      if s.Err? {
        return Err(s.error), t, rounds;
      }
      var status := s.value;
      while Has(status, OUT_BUF)
        invariant Draining(t, rounds, status, AnyPort)
        invariant Step(old(trace), old(input), t, trace, input)
        decreases |input|
      {
        ghost var tr0, in0 := trace, input;
        var d, t1 := ReadData();
        Chain(old(trace), old(input), t, tr0, in0, t1, trace, input);
        ghost var round := [StatusRead(status)] + t1;
        if d.Err? {
          return Err(d.error), t + t1, rounds;
        }
        ghost var tr1, in1 := trace, input;
        var s2, t2 := ReadStatus();
        Chain(old(trace), old(input), t + t1, tr1, in1, t2, trace, input);
        if s2.Err? {
          return Err(s2.error), t + t1 + t2, rounds;
        }
        NextRound(t, rounds, status, t1, d.value, t2, s2.value, AnyPort);
        t := t + t1 + t2;
        rounds := rounds + [[StatusRead(status)] + t1];
        status := s2.value;
      }
      Stopped(t, rounds, status, AnyPort);
      r := Ok(());
    }
  }

  /** The configuration change both devices make when they start, in the
      five parts `p` of `t`: enable their port with `cmd`; read the
      configuration `cfg` (READ_CONFIG, then a data read); write it back
      with `flag` set (WRITE_CONFIG, then a data write). */
  predicate PortEnabled(t: seq<Access>, cmd: byte, cfg: byte, flag: byte, p: seq<seq<Access>>)
  {
    |p| == 5 && t == p[0] + p[1] + p[2] + p[3] + p[4]
    && Sent(p[0], CmdWrite(cmd))
    && Sent(p[1], CmdWrite(READ_CONFIG)) && Got(p[2], cfg)
    && Sent(p[3], CmdWrite(WRITE_CONFIG)) && Sent(p[4], DataWrite(cfg | flag))
  }

  /** The three steps of enabling a port, read as its five parts. */
  lemma Enabled(t1: seq<Access>, t2: seq<Access>, t3: seq<Access>, p: seq<seq<Access>>,
                cmd: byte, cfg: byte, flag: byte)
    requires |p| == 5 && p[0] == t1 && t2 == p[1] + p[2] && t3 == p[3] + p[4]
    requires Sent(p[0], CmdWrite(cmd))
    requires Sent(p[1], CmdWrite(READ_CONFIG)) && Got(p[2], cfg)
    requires Sent(p[3], CmdWrite(WRITE_CONFIG)) && Sent(p[4], DataWrite(cfg | flag))
    ensures PortEnabled(t1 + t2 + t3, cmd, cfg, flag, p)
  {
    assert t1 + t2 + t3 == p[0] + p[1] + p[2] + p[3] + p[4];
  }

  /** What a device sees of an event: an interrupt with its line, or
      anything else. */
  datatype DeviceEvent = Irq(irq: nat) | OtherEvent

  /* ---- keyboard ----------------------------------------------------- */

  /** The keyboard interrupt line and the mouse's. */
  const KEYBOARD_IRQ: nat := 1
  const MOUSE_IRQ: nat := 12

  /** The scan-code prefix of the extended keys. */
  const ESCAPE: byte := 0xE0

  /** A key the keyboard handler reports: its code and bit 7 of the scan
      byte, which the handler prints as "pressed". */
  datatype Key = Key(code: nat, pressed: bool)

  /** The keyboard decoder's state: the escape flag and the keys reported
      so far. */
  datatype KeyState = KeyState(esc: bool, keys: seq<Key>)

  /** One scan byte: after the prefix, a key in the upper half of the code
      space; the prefix itself only sets the flag; anything else, a key in
      the lower half. */
  function KeyStep(st: KeyState, data: byte): KeyState
  {
    var pressed := data & 0x80 != 0;
    if st.esc then KeyState(false, st.keys + [Key((data & 0x7F) as nat + 0x80, pressed)])
    else if data == ESCAPE then KeyState(true, st.keys)
    else KeyState(false, st.keys + [Key((data & 0x7F) as nat, pressed)])
  }

  /** The decoder after the bytes `ds`, in order. */
  function ScanKeys(st: KeyState, ds: seq<byte>): KeyState
  {
    if ds == [] then st else KeyStep(ScanKeys(st, ds[..|ds| - 1]), ds[|ds| - 1])
  }

  lemma ScanSnoc(st: KeyState, ds: seq<byte>, d: byte)
    ensures ScanKeys(st, ds + [d]) == KeyStep(ScanKeys(st, ds), d)
  {
    assert (ds + [d])[..|ds|] == ds;
  }

  /** Decoding is incremental: bytes delivered over several interrupts
      decode as if delivered at once. */
  lemma {:induction false} ScanAppend(st: KeyState, a: seq<byte>, b: seq<byte>)
    ensures ScanKeys(st, a + b) == ScanKeys(ScanKeys(st, a), b)
    decreases |b|
  {
    if b == [] {
      assert a + b == a;
    } else {
      assert (a + b)[..|a + b| - 1] == a + b[..|b| - 1];
      ScanAppend(st, a, b[..|b| - 1]);
    }
  }

  /** Keys are only ever added, at most one per byte, every code fits in
      a byte, and the decoder ends escaped exactly when the last byte was
      a prefix that was not itself escaped. */
  lemma {:induction false} ScanKeysShape(st: KeyState, ds: seq<byte>)
    requires forall i :: 0 <= i < |st.keys| ==> st.keys[i].code < 0x100
    ensures var r := ScanKeys(st, ds);
      |st.keys| <= |r.keys| <= |st.keys| + |ds| && r.keys[..|st.keys|] == st.keys
      && (forall i :: 0 <= i < |r.keys| ==> r.keys[i].code < 0x100)
      && (ds != [] ==> (r.esc <==> ds[|ds| - 1] == ESCAPE && !ScanKeys(st, ds[..|ds| - 1]).esc))
    decreases |ds|
  {
    if ds != [] {
      ScanKeysShape(st, ds[..|ds| - 1]);
    }
  }

  /** A prefixed byte gives the upper-half code of its low seven bits, so
      the extended keys never clash with the plain ones. */
  lemma {:induction false} EscapedKeys(st: KeyState, d: byte, e: byte)
    requires !st.esc
    ensures ScanKeys(st, [ESCAPE, d]) == KeyState(false, st.keys + [Key((d & 0x7F) as nat + 0x80, d & 0x80 != 0)])
    ensures e != ESCAPE ==> ScanKeys(st, [e]) == KeyState(false, st.keys + [Key((e & 0x7F) as nat, e & 0x80 != 0)])
    ensures 0x80 <= ScanKeys(st, [ESCAPE, d]).keys[|st.keys|].code < 0x100
    ensures e != ESCAPE ==> ScanKeys(st, [e]).keys[|st.keys|].code < 0x80
  {
    assert [ESCAPE, d][..1] == [ESCAPE];
    assert [ESCAPE][..0] == [];
    assert [e][..0] == [];
    assert ScanKeys(st, [ESCAPE]) == KeyState(true, st.keys);
    assert ScanKeys(st, [ESCAPE, d]) == KeyStep(KeyState(true, st.keys), d);
  }

  /** The steps `Keyboard::init` and `Mouse::init` both begin with: the
      port's enable command `cmd`, then a read-modify-write of the
      configuration that sets `flag`. */
  method EnablePort(ctrl: I8042, cmd: byte, flag: byte)
    returns (r: Result<()>, ghost t: seq<Access>, ghost cfg: byte,
             ghost parts: seq<seq<Access>>)
    modifies ctrl
    ensures Step(old(ctrl.trace), old(ctrl.input), t, ctrl.trace, ctrl.input)
    ensures r.Ok? <==> PortEnabled(t, cmd, cfg, flag, parts)
    ensures r.Err? ==> r.error in {TimedOut, IoFault}
  {
    var c, t1 := ctrl.WriteCmd(cmd);
    t, cfg, parts := t1, 0, [];
    if c.Err? {
      return Err(c.error), t, cfg, parts;
    }
    ghost var tr1, in1 := ctrl.trace, ctrl.input;
    var g, t2, a2, b2 := ctrl.ReadConfig();
    Chain(old(ctrl.trace), old(ctrl.input), t1, tr1, in1, t2, ctrl.trace, ctrl.input);
    t := t1 + t2;
    if g.Err? {
      return Err(g.error), t, cfg, parts;
    }
    var cfgs := g.value;
    cfg := cfgs;
    cfgs := cfgs | flag;
    ghost var tr2, in2 := ctrl.trace, ctrl.input;
    var w, t3, a3, b3 := ctrl.WriteConfig(cfgs);
    Chain(old(ctrl.trace), old(ctrl.input), t1 + t2, tr2, in2, t3, ctrl.trace, ctrl.input);
    t := t1 + t2 + t3;
    if w.Err? {
      return Err(w.error), t, cfg, parts;
    }
    parts := [t1, a2, b2, a3, b3];
    Enabled(t1, t2, t3, parts, cmd, cfg, flag);
    r := Ok(());
  }

  /** A PS/2 keyboard on the controller's main port (`Keyboard`). */
  class Keyboard {
    const ctrl: I8042
    /** `_esc`: the previous byte was the 0xE0 prefix. */
    var esc: bool
    /** The keys reported so far; the source writes them to its log. */
    var keys: seq<Key>

    constructor (ctrl: I8042)
      ensures this.ctrl == ctrl && !esc && keys == []
    {
      this.ctrl := ctrl;
      esc := false;
      keys := [];
    }

    /** `Keyboard::init`: enables the main port and its interrupt. */
    method Init() returns (r: Result<()>, ghost t: seq<Access>, ghost cfg: byte,
                           ghost parts: seq<seq<Access>>)
      modifies ctrl
      ensures Step(old(ctrl.trace), old(ctrl.input), t, ctrl.trace, ctrl.input)
      ensures r.Ok? <==> PortEnabled(t, ENABLE_MAIN, cfg, FIRST_PORT_INTERRUPT_ENABLE, parts)
      ensures r.Err? ==> r.error in {TimedOut, IoFault}
    {
      r, t, cfg, parts := EnablePort(ctrl, ENABLE_MAIN, FIRST_PORT_INTERRUPT_ENABLE);
    }

    /** The body of `Keyboard::event`'s loop for one byte. */
    method Decode(data: byte)
      modifies this
      ensures KeyState(esc, keys) == KeyStep(old(KeyState(esc, keys)), data)
    {
      if esc {
        keys := keys + [Key((data & 0x7F) as nat + 0x80, data & 0x80 != 0)];
        esc := false;
      } else if data == ESCAPE {
        esc := true;
      } else {
        keys := keys + [Key((data & 0x7F) as nat, data & 0x80 != 0)];
      }
    }

    /** `Keyboard::event`: on the keyboard interrupt, decodes bytes for as
        long as the status shows main-port data waiting. */
    method Event(e: DeviceEvent) returns (r: Result<()>, ghost t: seq<Access>, ghost rounds: seq<seq<Access>>)
      modifies this, ctrl
      ensures Step(old(ctrl.trace), old(ctrl.input), t, ctrl.trace, ctrl.input)
      ensures KeyState(esc, keys) == ScanKeys(KeyState(old(esc), old(keys)), DataIn(t))
      ensures e != Irq(KEYBOARD_IRQ) ==> t == [] && r == Ok(())
      ensures e == Irq(KEYBOARD_IRQ) && r.Ok? ==> Drained(t, MainPort, rounds)
      ensures r.Err? ==> r.error in {TimedOut, IoFault}
    {
      t, rounds := [], [];
      if e.Irq? && e.irq == KEYBOARD_IRQ {
        var s;
        s, t := ctrl.ReadStatus();
        if s.Err? {
          return Err(s.error), t, rounds;
        }
        var status := s.value;
        while Has(status, OUT_BUF) && !Has(status, AUX_BUF)
          invariant Draining(t, rounds, status, MainPort)
          invariant Step(old(ctrl.trace), old(ctrl.input), t, ctrl.trace, ctrl.input)
          invariant KeyState(esc, keys) == ScanKeys(KeyState(old(esc), old(keys)), DataIn(t))
          decreases |ctrl.input|
        {
          ghost var tr0, in0 := ctrl.trace, ctrl.input;
          var d, t1 := ctrl.ReadData();
          Chain(old(ctrl.trace), old(ctrl.input), t, tr0, in0, t1, ctrl.trace, ctrl.input);
          if d.Err? {
            assert DataIn(t + t1) == DataIn(t);
            return Err(d.error), t + t1, rounds;
          }
          var data := d.value;
          Decode(data);
          ScanSnoc(KeyState(old(esc), old(keys)), DataIn(t), data);
          ghost var tr1, in1 := ctrl.trace, ctrl.input;
          var s2, t2 := ctrl.ReadStatus();
          Chain(old(ctrl.trace), old(ctrl.input), t + t1, tr1, in1, t2, ctrl.trace, ctrl.input);
          assert DataIn(t + t1 + t2) == DataIn(t) + [data];
          if s2.Err? {
            return Err(s2.error), t + t1 + t2, rounds;
          }
          NextRound(t, rounds, status, t1, data, t2, s2.value, MainPort);
          t := t + t1 + t2;
          rounds := rounds + [[StatusRead(status)] + t1];
          status := s2.value;
        }
        Stopped(t, rounds, status, MainPort);
      }
      r := Ok(());
    }
  }

  /* ---- mouse -------------------------------------------------------- */

  /** A movement the mouse handler reports: the two deltas and the wheel. */
  datatype Move = Move(offx: int, offy: int, scroll: int)

  /** `(i8)b`: the byte read as a two's-complement signed value. */
  function Signed(b: byte): (v: int)
    ensures -128 <= v <= 127
    ensures v < 0 <==> b & 0x80 != 0
    ensures v % 256 == b as int
  {
    if b < 0x80 then b as int else b as int - 0x100
  }

  /** `_buf`: a packet of four bytes, the fourth used only by a wheel mouse. */
  type Packet = b: seq<byte> | |b| == 4 witness [0, 0, 0, 0]

  /** `Mouse::decode`: the deltas are nine-bit two's-complement values
      whose sign bits sit in the first byte (0x10 for x, 0x20 for y); the
      wheel byte is signed and only read when the wheel is present. */
  function DecodePacket(buf: Packet, hasWheel: bool): (m: Move)
    ensures !hasWheel ==> m.scroll == 0
  {
    var offx := buf[1] as int - (if buf[0] & 0x10 != 0 then 0x100 else 0);
    var offy := buf[2] as int - (if buf[0] & 0x20 != 0 then 0x100 else 0);
    var scroll := if hasWheel then Signed(buf[3]) else 0;
    Move(offx, offy, scroll)
  }

  /** A decoded packet: each delta is nine-bit two's complement, its low
      eight bits the packet's byte and its sign the flag in the first
      byte; the wheel byte is a signed byte. */
  lemma DecodedMove(buf: Packet, hasWheel: bool)
    ensures var m := DecodePacket(buf, hasWheel);
      && -0x100 <= m.offx <= 0xFF && -0x100 <= m.offy <= 0xFF && -128 <= m.scroll <= 127
      && (m.offx < 0 <==> buf[0] & 0x10 != 0)
      && (m.offy < 0 <==> buf[0] & 0x20 != 0)
      && m.offx % 0x100 == buf[1] as int
      && m.offy % 0x100 == buf[2] as int
      && (hasWheel ==> m.scroll == Signed(buf[3]))
  {
    var m := DecodePacket(buf, hasWheel);
    LowByte(buf[1] as int, buf[0] & 0x10 != 0);
    LowByte(buf[2] as int, buf[0] & 0x20 != 0);
  }

  /** A byte with a ninth bit as sign keeps its low eight bits. */
  lemma LowByte(x: int, neg: bool)
    requires 0 <= x < 0x100
    ensures (x - if neg then 0x100 else 0) % 0x100 == x
    ensures (x - if neg then 0x100 else 0) < 0 <==> neg
  {
  }

  /** The packet assembler's state: `_cycle`, `_buf` and the movements
      reported so far. */
  datatype MouseState = MouseState(cycle: byte, buf: Packet, moves: seq<Move>)

  /** One byte of `Mouse::event`'s switch on the cycle: the first byte of a
      packet is taken only when it carries the always-one bit 0x08; a
      packet ends after its third byte, or its fourth with a wheel. */
  function MouseStep(st: MouseState, hasWheel: bool, data: byte): (r: MouseState)
  {
    if st.cycle == 0 then
      MouseState(if data & 0x08 != 0 then 1 else 0, st.buf[0 := data], st.moves)
    else if st.cycle == 1 then
      MouseState(2, st.buf[1 := data], st.moves)
    else if st.cycle == 2 then
      var b := st.buf[2 := data];
      if hasWheel then MouseState(3, b, st.moves)
      else MouseState(0, b, st.moves + [DecodePacket(b, hasWheel)])
    else if st.cycle == 3 then
      var b := st.buf[3 := data];
      MouseState(0, b, st.moves + [DecodePacket(b, hasWheel)])
    else st
  }

  /** The assembler after the bytes `ds`, in order. */
  function Assemble(st: MouseState, hasWheel: bool, ds: seq<byte>): (r: MouseState)
  {
    if ds == [] then st else MouseStep(Assemble(st, hasWheel, ds[..|ds| - 1]), hasWheel, ds[|ds| - 1])
  }

  lemma AssembleSnoc(st: MouseState, hasWheel: bool, ds: seq<byte>, d: byte)
    ensures Assemble(st, hasWheel, ds + [d]) == MouseStep(Assemble(st, hasWheel, ds), hasWheel, d)
  {
    assert (ds + [d])[..|ds|] == ds;
  }

  /** Assembly is incremental: a packet split over several interrupts is
      assembled as if its bytes came at once. */
  lemma {:induction false} AssembleAppend(st: MouseState, hasWheel: bool, a: seq<byte>, b: seq<byte>)
    ensures Assemble(st, hasWheel, a + b) == Assemble(Assemble(st, hasWheel, a), hasWheel, b)
    decreases |b|
  {
    if b == [] {
      assert a + b == a;
    } else {
      assert (a + b)[..|a + b| - 1] == a + b[..|b| - 1];
      AssembleAppend(st, hasWheel, a, b[..|b| - 1]);
    }
  }

  /** The cycle is a position in a packet: at most 2 without a wheel, at
      most 3 with one. */
  predicate InPacket(st: MouseState, hasWheel: bool)
  {
    st.cycle <= (if hasWheel then 3 else 2)
  }

  /** Assembly keeps the cycle inside a packet and only adds movements. */
  lemma {:induction false} AssembleKeepsCycle(st: MouseState, hasWheel: bool, ds: seq<byte>)
    requires InPacket(st, hasWheel)
    ensures InPacket(Assemble(st, hasWheel, ds), hasWheel)
    ensures |st.moves| <= |Assemble(st, hasWheel, ds).moves|
    ensures Assemble(st, hasWheel, ds).moves[..|st.moves|] == st.moves
    decreases |ds|
  {
    if ds != [] {
      AssembleKeepsCycle(st, hasWheel, ds[..|ds| - 1]);
    }
  }

  /** Bytes without the 0x08 bit, seen between packets, are dropped: the
      assembler stays at the start of a packet and reports nothing. */
  lemma {:induction false} UnsyncedBytesDropped(st: MouseState, hasWheel: bool, ds: seq<byte>)
    requires st.cycle == 0
    requires forall i :: 0 <= i < |ds| ==> ds[i] & 0x08 == 0
    ensures Assemble(st, hasWheel, ds).cycle == 0
    ensures Assemble(st, hasWheel, ds).moves == st.moves
    decreases |ds|
  {
    if ds != [] {
      UnsyncedBytesDropped(st, hasWheel, ds[..|ds| - 1]);
    }
  }

  /** The bytes of a packet: three, or four with a wheel. */
  function PacketSize(hasWheel: bool): nat
  {
    if hasWheel then 4 else 3
  }

  /** From the start of a packet, a synchronised packet of PacketSize bytes
      is reported as exactly one movement, decoded from those bytes, and
      the assembler is back at the start. */
  lemma {:induction false} PacketDecoded(st: MouseState, hasWheel: bool, p: seq<byte>)
    requires st.cycle == 0
    requires |p| == PacketSize(hasWheel) && p[0] & 0x08 != 0
    ensures var buf := if hasWheel then p else p + [st.buf[3]];
      Assemble(st, hasWheel, p) == MouseState(0, buf, st.moves + [DecodePacket(buf, hasWheel)])
  {
    var s3 := PacketHead(st, hasWheel, p);
    if hasWheel {
      AssembleSnoc(st, hasWheel, p[..3], p[3]);
      assert p == p[..3] + [p[3]];
      assert s3.buf[3 := p[3]] == p;
    } else {
      assert p == p[..3];
      assert s3.buf == p + [st.buf[3]];
    }
  }

  /** The first three bytes of a synchronised packet fill the buffer's
      first three slots and report nothing; the cycle then says whether
      a wheel byte follows. */
  lemma {:induction false} PacketHead(st: MouseState, hasWheel: bool, p: seq<byte>) returns (s3: MouseState)
    requires st.cycle == 0 && |p| >= 3 && p[0] & 0x08 != 0
    ensures s3 == Assemble(st, hasWheel, p[..3])
    ensures s3.buf == p[..3] + [st.buf[3]]
    ensures hasWheel ==> s3.cycle == 3 && s3.moves == st.moves
    ensures !hasWheel ==> s3 == MouseState(0, s3.buf, st.moves + [DecodePacket(s3.buf, false)])
    ensures forall n :: 0 <= n < 3 ==> Assemble(st, hasWheel, p[..n]).moves == st.moves
  {
    assert p[..0] == [];
    assert Assemble(st, hasWheel, p[..0]) == st;
    AssembleSnoc(st, hasWheel, p[..0], p[0]);
    assert p[..1] == p[..0] + [p[0]];
    var s1 := Assemble(st, hasWheel, p[..1]);
    assert s1 == MouseState(1, st.buf[0 := p[0]], st.moves);
    AssembleSnoc(st, hasWheel, p[..1], p[1]);
    assert p[..2] == p[..1] + [p[1]];
    var s2 := Assemble(st, hasWheel, p[..2]);
    assert s2 == MouseState(2, s1.buf[1 := p[1]], st.moves);
    AssembleSnoc(st, hasWheel, p[..2], p[2]);
    assert p[..3] == p[..2] + [p[2]];
    s3 := Assemble(st, hasWheel, p[..3]);
    assert s3.buf == s2.buf[2 := p[2]];
    assert s3.buf == p[..3] + [st.buf[3]];
  }

  /** The commands the mouse driver sends to the device. */
  datatype AuxCmd = SetDefault | EnableReport | GetDeviceId | SetSampleRate(rate: nat)

  /** The knock sequence that turns on the wheel of a wheel mouse:
      sample rates 200, 100, 80, then the device id is read again. */
  const WHEEL_PROBE: seq<AuxCmd> :=
    [SetDefault, EnableReport, GetDeviceId, SetSampleRate(200), SetSampleRate(100), SetSampleRate(80), GetDeviceId]

  /** The device answered each command of the probe started when `base`
      commands had been sent. */
  predicate ProbeAnswered(aux: nat -> Result<byte>, base: nat)
  {
    forall n :: base <= n < base + |WHEEL_PROBE| ==> aux(n).Ok?
  }

  /** The device id of a mouse with a wheel. */
  const WHEEL_MOUSE_ID: byte := 0x03

  /** A PS/2 mouse on the controller's auxiliary port (`Mouse`). */
  class Mouse {
    const ctrl: I8042
    /** `_cycle`: the position of the next byte in the packet. */
    var cycle: byte
    /** `_buf`: the packet being assembled, stored in the object. */
    var buf: Packet
    /** `_hasWheel`: the device reports a fourth, wheel, byte. */
    var hasWheel: bool
    /** The movements reported so far; the source writes them to its log. */
    var moves: seq<Move>
    /** The commands sent to the device so far. */
    var sent: seq<AuxCmd>

    constructor (ctrl: I8042)
      ensures this.ctrl == ctrl
      ensures cycle == 0 && buf == [0, 0, 0, 0] && !hasWheel && moves == [] && sent == []
    {
      this.ctrl := ctrl;
      cycle := 0;
      buf := [0, 0, 0, 0];
      hasWheel := false;
      moves := [];
      sent := [];
    }

    /** `sendCmd`, whose body is not part of this model: the reply to the
        `n`th command sent is `aux(n)`. */
    method SendCmd(c: AuxCmd, aux: nat -> Result<byte>) returns (r: Result<byte>)
      modifies this`sent
      ensures sent == old(sent) + [c] && r == aux(|old(sent)|)
    {
      r := aux(|sent|);
      sent := sent + [c];
    }

    /** `Mouse::init`: enables the auxiliary port and its interrupt,
        resets the device, turns reporting on and probes for a wheel. */
    method Init(aux: nat -> Result<byte>) returns (r: Result<()>, ghost t: seq<Access>, ghost cfg: byte,
                                                   ghost parts: seq<seq<Access>>)
      modifies ctrl, this`sent, this`hasWheel
      ensures Step(old(ctrl.trace), old(ctrl.input), t, ctrl.trace, ctrl.input)
      ensures r.Ok? <==> PortEnabled(t, ENABLE_AUX, cfg, SECOND_PORT_INTERRUPT_ENABLE, parts)
                         && ProbeAnswered(aux, |old(sent)|)
      ensures r.Ok? ==> sent == old(sent) + WHEEL_PROBE
      ensures r.Ok? ==> (hasWheel <==> aux(|old(sent)| + 6).value == WHEEL_MOUSE_ID)
      ensures r.Err? ==> hasWheel == old(hasWheel)
    {
      r, t, cfg, parts := EnablePort(ctrl, ENABLE_AUX, SECOND_PORT_INTERRUPT_ENABLE);
      if r.Err? {
        return;
      }
      r := Probe(aux);
    }

    /** The device commands of `Mouse::init`, once the port is enabled:
        back to defaults, reporting on, then the wheel probe. */
    method Probe(aux: nat -> Result<byte>) returns (r: Result<()>)
      modifies this`sent, this`hasWheel
      ensures r.Ok? <==> ProbeAnswered(aux, |old(sent)|)
      ensures r.Ok? ==> sent == old(sent) + WHEEL_PROBE
      ensures r.Ok? ==> (hasWheel <==> aux(|old(sent)| + 6).value == WHEEL_MOUSE_ID)
      ensures r.Err? ==> hasWheel == old(hasWheel)
    {
      var base := |sent|;
      var a := SendCmd(SetDefault, aux);
      if a.Err? { return Err(a.error); }
      a := SendCmd(EnableReport, aux);
      if a.Err? { return Err(a.error); }
      assert aux(base).Ok? && aux(base + 1).Ok?;
      assert sent == old(sent) + WHEEL_PROBE[..2];
      r := ProbeWheel(aux);
      assert WHEEL_PROBE[..2] + WHEEL_PROBE[2..] == WHEEL_PROBE;
    }

    /** The wheel probe of `Mouse::init`: the device id, the sample rates
        200, 100 and 80, then the device id again, which tells whether the
        wheel is now on. */
    method ProbeWheel(aux: nat -> Result<byte>) returns (r: Result<()>)
      modifies this`sent, this`hasWheel
      ensures r.Ok? <==> forall n :: |old(sent)| <= n < |old(sent)| + 5 ==> aux(n).Ok?
      ensures r.Ok? ==> sent == old(sent) + WHEEL_PROBE[2..]
      ensures r.Ok? ==> (hasWheel <==> aux(|old(sent)| + 4).value == WHEEL_MOUSE_ID)
      ensures r.Err? ==> hasWheel == old(hasWheel)
    {
      var base := |sent|;
      var a := SendCmd(GetDeviceId, aux);
      if a.Err? { return Err(a.error); }
      a := SendCmd(SetSampleRate(200), aux);
      if a.Err? { return Err(a.error); }
      a := SendCmd(SetSampleRate(100), aux);
      if a.Err? { return Err(a.error); }
      a := SendCmd(SetSampleRate(80), aux);
      if a.Err? { return Err(a.error); }
      var id := SendCmd(GetDeviceId, aux);
      if id.Err? { return Err(id.error); }
      assert aux(base).Ok? && aux(base + 1).Ok? && aux(base + 2).Ok? && aux(base + 3).Ok? && aux(base + 4).Ok?;
      if id.value == WHEEL_MOUSE_ID {
        hasWheel := true;
      } else {
        hasWheel := false;
      }
      r := Ok(());
    }

    /** `Mouse::decode`: reports the movement in the assembled packet. */
    method Decode()
      modifies this`moves
      ensures moves == old(moves) + [DecodePacket(buf, hasWheel)]
    {
      moves := moves + [DecodePacket(buf, hasWheel)];
    }

    /** The body of `Mouse::event`'s loop for one byte. */
    method Feed(data: byte)
      modifies this`cycle, this`buf, this`moves
      ensures MouseState(cycle, buf, moves) == MouseStep(old(MouseState(cycle, buf, moves)), hasWheel, data)
    {
      if cycle == 0 {
        buf := buf[0 := data];
        if data & 0x08 != 0 {
          cycle := 1;
        }
      } else if cycle == 1 {
        buf := buf[1 := data];
        cycle := 2;
      } else if cycle == 2 {
        buf := buf[2 := data];
        if hasWheel {
          cycle := cycle + 1;
        } else {
          cycle := 0;
          Decode();
        }
      } else if cycle == 3 {
        buf := buf[3 := data];
        cycle := 0;
        Decode();
      }
    }

    /** `Feed` seen from the loop: the state assembled from the bytes `ds`
        becomes the state assembled from `ds` and `data`. */
    method Accept(data: byte, ghost st0: MouseState, ghost ds: seq<byte>)
      requires MouseState(cycle, buf, moves) == Assemble(st0, hasWheel, ds)
      modifies this`cycle, this`buf, this`moves
      ensures MouseState(cycle, buf, moves) == Assemble(st0, hasWheel, ds + [data])
    {
      Feed(data);
      AssembleSnoc(st0, hasWheel, ds, data);
    }

    /** `Mouse::event`: on the mouse interrupt, assembles bytes for as long
        as the status shows auxiliary-port data waiting. */
    method Event(e: DeviceEvent) returns (r: Result<()>, ghost t: seq<Access>, ghost rounds: seq<seq<Access>>)
      modifies this`cycle, this`buf, this`moves, ctrl
      ensures Step(old(ctrl.trace), old(ctrl.input), t, ctrl.trace, ctrl.input)
      ensures MouseState(cycle, buf, moves) == Assemble(MouseState(old(cycle), old(buf), old(moves)), hasWheel, DataIn(t))
      ensures e != Irq(MOUSE_IRQ) ==> t == [] && r == Ok(())
      ensures e == Irq(MOUSE_IRQ) && r.Ok? ==> Drained(t, AuxPort, rounds)
      ensures r.Err? ==> r.error in {TimedOut, IoFault}
    {
      t, rounds := [], [];
      ghost var st0 := MouseState(cycle, buf, moves);
      if e.Irq? && e.irq == MOUSE_IRQ {
        var s;
        s, t := ctrl.ReadStatus();
        if s.Err? {
          return Err(s.error), t, rounds;
        }
        var status := s.value;
        while Has(status, OUT_BUF) && Has(status, AUX_BUF)
          invariant Draining(t, rounds, status, AuxPort)
          invariant Step(old(ctrl.trace), old(ctrl.input), t, ctrl.trace, ctrl.input)
          invariant MouseState(cycle, buf, moves) == Assemble(st0, hasWheel, DataIn(t))
          decreases |ctrl.input|
        {
          ghost var tr0, in0 := ctrl.trace, ctrl.input;
          var d, t1 := ctrl.ReadData();
          Chain(old(ctrl.trace), old(ctrl.input), t, tr0, in0, t1, ctrl.trace, ctrl.input);
          if d.Err? {
            assert DataIn(t + t1) == DataIn(t);
            return Err(d.error), t + t1, rounds;
          }
          var data := d.value;
          Accept(data, st0, DataIn(t));
          ghost var tr1, in1 := ctrl.trace, ctrl.input;
          var s2, t2 := ctrl.ReadStatus();
          Chain(old(ctrl.trace), old(ctrl.input), t + t1, tr1, in1, t2, ctrl.trace, ctrl.input);
          assert DataIn(t + t1 + t2) == DataIn(t) + [data];
          if s2.Err? {
            return Err(s2.error), t + t1 + t2, rounds;
          }
          NextRound(t, rounds, status, t1, data, t2, s2.value, AuxPort);
          t := t + t1 + t2;
          rounds := rounds + [[StatusRead(status)] + t1];
          status := s2.value;
        }
        Stopped(t, rounds, status, AuxPort);
      }
      r := Ok(());
    }
  }

  /** `I8042::init`: attaches the keyboard and the mouse, then flushes the
      controller. Attaching is not part of this model: `attachKeyboard`
      and `attachMouse` are its outcomes. */
  method ControllerInit(ctrl: I8042, attachKeyboard: Result<()>, attachMouse: Result<()>)
    returns (r: Result<()>, ghost t: seq<Access>, ghost rounds: seq<seq<Access>>)
    modifies ctrl
    ensures Step(old(ctrl.trace), old(ctrl.input), t, ctrl.trace, ctrl.input)
    ensures attachKeyboard.Err? ==> r == attachKeyboard && t == []
    ensures attachKeyboard.Ok? && attachMouse.Err? ==> r == attachMouse && t == []
    ensures attachKeyboard.Ok? && attachMouse.Ok? && r.Ok? ==> Drained(t, AnyPort, rounds)
  {
    t, rounds := [], [];
    if attachKeyboard.Err? {
      return attachKeyboard, t, rounds;
    }
    if attachMouse.Err? {
      return attachMouse, t, rounds;
    }
    r, t, rounds := ctrl.Flush();
  }
}
