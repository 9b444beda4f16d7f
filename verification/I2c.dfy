/** The I2C master and the register access of the camera built on it, with the rules of the I2C-bus
    specification (UM10204): START and STOP conditions (section 3.1.4), acknowledge (section 3.1.6), address and
    R/W bit (section 3.1.10). */
module I2c {
  type Byte = x: int | 0 <= x < 256
  type Word16 = x: int | 0 <= x < 0x1_0000

  const SUCCESS := 0
  const ENODEV := 1
  const EBADACK := 2

  /** One write of the control register, with the byte it sends if it sends one. */
  datatype Cmd = Cmd(start: bool, stop: bool, write: bool, read: bool, noAck: bool, data: Byte)

  function Address(byte: Byte): Cmd { Cmd(true, false, true, false, false, byte) }
  function Data(byte: Byte, last: bool): Cmd { Cmd(false, last, true, false, false, byte) }
  function Fetch(last: bool): Cmd { Cmd(false, last, false, true, last, 0) }
  function StopOnly(): Cmd { Cmd(false, true, false, false, false, 0) }

  /** `device & 0xFE` and `device | 0x01`. */
  function ForWriting(device: Byte): Byte { device - device % 2 }
  function ForReading(device: Byte): Byte { device - device % 2 + 1 }

  /** Whatever is on the bus: it answers to the commands so far, the last one included. */
  datatype World = World(nack: seq<Cmd> -> bool, input: seq<Cmd> -> Byte)

  datatype Outcome = Outcome(trace: seq<Cmd>, rc: int, bytes: seq<Byte>)

  function Abandon(t: seq<Cmd>, rc: int): Outcome
  {
    Outcome(t + [StopOnly()], rc, [])
  }

  /** Address the device for writing and send the register index; `rc` is SUCCESS if both are acknowledged. */
  function Select(w: World, t: seq<Cmd>, device: Byte, index: Byte): Outcome
  {
    var t1 := t + [Address(ForWriting(device))];
    if w.nack(t1) then Abandon(t1, ENODEV) else
    var t2 := t1 + [Data(index, false)];
    if w.nack(t2) then Abandon(t2, EBADACK) else Outcome(t2, SUCCESS, [])
  }

  function SendAll(w: World, t: seq<Cmd>, values: seq<Byte>): Outcome
    decreases |values|
  {
    if values == [] then Outcome(t, SUCCESS, []) else
    var t1 := t + [Data(values[0], |values| == 1)];
    if w.nack(t1) then Abandon(t1, EBADACK) else SendAll(w, t1, values[1..])
  }

  function FetchAll(w: World, t: seq<Cmd>, n: nat, got: seq<Byte>): Outcome
    decreases n
  {
    if n == 0 then Outcome(t, SUCCESS, got) else
    var t1 := t + [Fetch(n == 1)];
    FetchAll(w, t1, n - 1, got + [w.input(t1)])
  }

  function WriteArray(w: World, t: seq<Cmd>, device: Byte, index: Byte, values: seq<Byte>): Outcome
  {
    var s := Select(w, t, device, index);
    if s.rc != SUCCESS then s else SendAll(w, s.trace, values)
  }

  function ReadArray(w: World, t: seq<Cmd>, device: Byte, index: Byte, size: nat): Outcome
  {
    var s := Select(w, t, device, index);
    if s.rc != SUCCESS then s else
    var t1 := s.trace + [Address(ForReading(device))];
    if w.nack(t1) then Abandon(t1, ENODEV) else FetchAll(w, t1, size, [])
  }

  // The rules of the bus.

  datatype Bus = Free | Sending | Receiving | Violated

  /** A START sends an address, whose lowest bit is the direction.  Bytes go in that direction.  A byte is
      refused by the master exactly when it is the last one, and then a STOP follows.  A lone STOP frees the bus. */
  function BusNext(b: Bus, c: Cmd): Bus
  {
    if b == Violated || (c.read && c.write) then Violated
    else if c.start then
      if !c.write || c.stop then Violated else if c.data % 2 == 0 then Sending else Receiving
    else if c.write then
      if b != Sending then Violated else if c.stop then Free else Sending
    else if c.read then
      if b != Receiving || c.noAck != c.stop then Violated else if c.stop then Free else Receiving
    else if c.stop then Free
    else Violated
  }

  function BusAfter(t: seq<Cmd>): Bus
  {
    if t == [] then Free else BusNext(BusAfter(t[..|t| - 1]), t[|t| - 1])
  }

  lemma BusStep(t: seq<Cmd>, c: Cmd)
    ensures BusAfter(t + [c]) == BusNext(BusAfter(t), c)
  {
    assert (t + [c])[..|t|] == t;
  }

  lemma SelectIsLegal(w: World, t: seq<Cmd>, device: Byte, index: Byte)
    requires BusAfter(t) == Free
    ensures var o := Select(w, t, device, index);
      BusAfter(o.trace) == (if o.rc == SUCCESS then Sending else Free) && t + [Address(ForWriting(device))] <= o.trace
  {
    var t1 := t + [Address(ForWriting(device))];
    var t2 := t1 + [Data(index, false)];
    BusStep(t, Address(ForWriting(device)));
    assert BusAfter(t1) == Sending;
    if w.nack(t1) {
      BusStep(t1, StopOnly());
    } else {
      BusStep(t1, Data(index, false));
      assert BusAfter(t2) == Sending;
      if w.nack(t2) {
        BusStep(t2, StopOnly());
      }
    }
  }

  lemma {:induction false} SendAllIsLegal(w: World, t: seq<Cmd>, values: seq<Byte>)
    requires BusAfter(t) == Sending
    ensures var o := SendAll(w, t, values);
      BusAfter(o.trace) == (if values == [] then Sending else Free) && t <= o.trace
    decreases |values|
  {
    if values != [] {
      var c := Data(values[0], |values| == 1);
      BusStep(t, c);
      BusStep(t + [c], StopOnly());
      if |values| > 1 {
        SendAllIsLegal(w, t + [c], values[1..]);
      }
    }
  }

  lemma {:induction false} FetchAllIsLegal(w: World, t: seq<Cmd>, n: nat, got: seq<Byte>)
    requires BusAfter(t) == Receiving
    ensures var o := FetchAll(w, t, n, got);
      BusAfter(o.trace) == (if n == 0 then Receiving else Free) && t <= o.trace
    decreases n
  {
    if n > 0 {
      var c := Fetch(n == 1);
      BusStep(t, c);
      if n > 1 {
        FetchAllIsLegal(w, t + [c], n - 1, got + [w.input(t + [c])]);
      }
    }
  }

  /** Whatever answers, a write obeys the bus rules from its START on the device address, and leaves the bus
      free unless it was asked to send nothing and succeeded. */
  lemma WriteIsLegal(w: World, t: seq<Cmd>, device: Byte, index: Byte, values: seq<Byte>)
    requires BusAfter(t) == Free
    ensures var o := WriteArray(w, t, device, index, values);
      && t + [Address(ForWriting(device))] <= o.trace && BusAfter(o.trace) != Violated
      && (BusAfter(o.trace) == Free <==> values != [] || o.rc != SUCCESS)
  {
    var s := Select(w, t, device, index);
    SelectIsLegal(w, t, device, index);
    if s.rc == SUCCESS {
      SendAllIsLegal(w, s.trace, values);
    }
  }

  lemma ReadIsLegal(w: World, t: seq<Cmd>, device: Byte, index: Byte, size: nat)
    requires BusAfter(t) == Free
    ensures var o := ReadArray(w, t, device, index, size);
      && t + [Address(ForWriting(device))] <= o.trace && BusAfter(o.trace) != Violated
      && (BusAfter(o.trace) == Free <==> size != 0 || o.rc != SUCCESS)
  {
    var s := Select(w, t, device, index);
    SelectIsLegal(w, t, device, index);
    if s.rc == SUCCESS {
      var t1 := s.trace + [Address(ForReading(device))];
      BusStep(s.trace, Address(ForReading(device)));
      BusStep(t1, StopOnly());
      if !w.nack(t1) {
        FetchAllIsLegal(w, t1, size, []);
      }
    }
  }

  // What goes over the bus.

  /** The bytes the master sends. */
  function Sent(t: seq<Cmd>): seq<Byte>
  {
    if t == [] then [] else Sent(t[..|t| - 1]) + if t[|t| - 1].write then [t[|t| - 1].data] else []
  }

  lemma SentStep(t: seq<Cmd>, c: Cmd)
    ensures Sent(t + [c]) == Sent(t) + if c.write then [c.data] else []
  {
    assert (t + [c])[..|t|] == t;
  }

  /** No byte sent from position n on was refused. */
  predicate AllAcked(w: World, t: seq<Cmd>, n: nat)
  {
    |t| <= n || (AllAcked(w, t[..|t| - 1], n) && (t[|t| - 1].write ==> !w.nack(t)))
  }

  lemma AckedStep(w: World, t: seq<Cmd>, n: nat, c: Cmd)
    requires n <= |t|
    ensures AllAcked(w, t + [c], n) <==> AllAcked(w, t, n) && (c.write ==> !w.nack(t + [c]))
  {
    assert (t + [c])[..|t|] == t;
  }

  /** The bytes that came in from position n on. */
  function Received(w: World, t: seq<Cmd>, n: nat): seq<Byte>
  {
    if |t| <= n then [] else Received(w, t[..|t| - 1], n) + if t[|t| - 1].read then [w.input(t)] else []
  }

  lemma ReceivedStep(w: World, t: seq<Cmd>, n: nat, c: Cmd)
    requires n <= |t|
    ensures Received(w, t + [c], n) == Received(w, t, n) + if c.read then [w.input(t + [c])] else []
  {
    assert (t + [c])[..|t|] == t;
  }

  /** What a transaction has done since position n: which bytes it sent and received, and whether all it sent
      was acknowledged. */
  ghost predicate Since(w: World, t: seq<Cmd>, n: nat, sent: seq<Byte>, received: seq<Byte>, acked: bool)
  {
    n <= |t| && Sent(t) == Sent(t[..n]) + sent && Received(w, t, n) == received && AllAcked(w, t, n) == acked
  }

  lemma SinceNow(w: World, t: seq<Cmd>)
    ensures Since(w, t, |t|, [], [], true)
  {
    assert t[..|t|] == t;
  }

  lemma SinceStep(w: World, t: seq<Cmd>, n: nat, sent: seq<Byte>, received: seq<Byte>, acked: bool, c: Cmd)
    requires Since(w, t, n, sent, received, acked)
    ensures Since(w, t + [c], n, sent + (if c.write then [c.data] else []),
                  received + (if c.read then [w.input(t + [c])] else []), acked && (c.write ==> !w.nack(t + [c])))
  {
    SentStep(t, c);
    AckedStep(w, t, n, c);
    ReceivedStep(w, t, n, c);
    assert (t + [c])[..n] == t[..n];
  }

  lemma SelectSends(w: World, t: seq<Cmd>, device: Byte, index: Byte)
    ensures var o := Select(w, t, device, index);
      Since(w, o.trace, |t|, if o.rc == ENODEV then [ForWriting(device)] else [ForWriting(device), index], [], o.rc == SUCCESS)
  {
    var a, d := Address(ForWriting(device)), Data(index, false);
    var t1 := t + [a];
    var t2 := t1 + [d];
    SinceNow(w, t);
    SinceStep(w, t, |t|, [], [], true, a);
    assert [] + [a.data] == [ForWriting(device)];
    if w.nack(t1) {
      SinceStep(w, t1, |t|, [ForWriting(device)], [], false, StopOnly());
    } else {
      SinceStep(w, t1, |t|, [ForWriting(device)], [], true, d);
      if w.nack(t2) {
        SinceStep(w, t2, |t|, [ForWriting(device), index], [], false, StopOnly());
      }
    }
  }

  lemma {:induction false} SendAllSends(w: World, t: seq<Cmd>, n: nat, sent: seq<Byte>, values: seq<Byte>)
    requires Since(w, t, n, sent, [], true)
    ensures var o := SendAll(w, t, values);
      if o.rc == SUCCESS then Since(w, o.trace, n, sent + values, [], true)
      else o.rc == EBADACK && !AllAcked(w, o.trace, n)
    decreases |values|
  {
    if values == [] {
      assert sent + [] == sent;
    } else {
      var c := Data(values[0], |values| == 1);
      var t1 := t + [c];
      SinceStep(w, t, n, sent, [], true, c);
      if w.nack(t1) {
        SinceStep(w, t1, n, sent + [values[0]], [], false, StopOnly());
      } else {
        SendAllSends(w, t1, n, sent + [values[0]], values[1..]);
        assert sent + [values[0]] + values[1..] == sent + values;
      }
    }
  }

  /** A write succeeds iff every byte it sent was acknowledged; then it sent exactly address, index and payload,
      and received nothing. */
  lemma WriteSends(w: World, t: seq<Cmd>, device: Byte, index: Byte, values: seq<Byte>)
    ensures var o := WriteArray(w, t, device, index, values);
      && (o.rc == SUCCESS <==> AllAcked(w, o.trace, |t|))
      && (o.rc == SUCCESS ==> Since(w, o.trace, |t|, [ForWriting(device), index] + values, [], true))
  {
    SelectSends(w, t, device, index);
    var s := Select(w, t, device, index);
    if s.rc == SUCCESS {
      SendAllSends(w, s.trace, |t|, [ForWriting(device), index], values);
    }
  }

  lemma {:induction false} FetchAllSends(w: World, t: seq<Cmd>, k: nat, n: nat, sent: seq<Byte>, got: seq<Byte>)
    requires Since(w, t, k, sent, got, true)
    ensures var o := FetchAll(w, t, n, got);
      o.rc == SUCCESS && Since(w, o.trace, k, sent, o.bytes, true) && |o.bytes| == |got| + n
    decreases n
  {
    if n > 0 {
      var c := Fetch(n == 1);
      var t1 := t + [c];
      SinceStep(w, t, k, sent, got, true, c);
      assert sent + [] == sent;
      FetchAllSends(w, t1, k, n - 1, sent, got + [w.input(t1)]);
    }
  }

  /** A read succeeds iff both addresses and the index were acknowledged; then these are all it sent, and it
      returns exactly the `size` bytes that came in, in order. */
  lemma ReadReceives(w: World, t: seq<Cmd>, device: Byte, index: Byte, size: nat)
    ensures var o := ReadArray(w, t, device, index, size);
      && (o.rc == SUCCESS <==> AllAcked(w, o.trace, |t|))
      && (o.rc == SUCCESS ==>
           |o.bytes| == size
           && Since(w, o.trace, |t|, [ForWriting(device), index, ForReading(device)], o.bytes, true))
  {
    SelectSends(w, t, device, index);
    var s := Select(w, t, device, index);
    if s.rc == SUCCESS {
      var c := Address(ForReading(device));
      var t1 := s.trace + [c];
      SinceStep(w, s.trace, |t|, [ForWriting(device), index], [], true, c);
      assert [ForWriting(device), index] + [c.data] == [ForWriting(device), index, ForReading(device)];
      if w.nack(t1) {
        SinceStep(w, t1, |t|, [ForWriting(device), index, ForReading(device)], [], false, StopOnly());
      } else {
        FetchAllSends(w, t1, |t|, size, [ForWriting(device), index, ForReading(device)], []);
      }
    }
  }

  // Which code a refused transaction returns.

  /** The n-th command of the trace was refused. */
  ghost predicate NackAt(w: World, t: seq<Cmd>, n: nat)
  {
    n <= |t| && w.nack(t[..n])
  }

  /** No command after the first n was refused. */
  ghost predicate AckedSince(w: World, t: seq<Cmd>, n: nat)
  {
    forall m: nat :: n < m <= |t| ==> !NackAt(w, t, m)
  }

  /** The transaction ended at its k-th command, counted from 0: that was the first to be refused, and a STOP and
      nothing else came after it. */
  ghost predicate RefusedAt(w: World, t: seq<Cmd>, o: Outcome, k: nat)
  {
    && |o.trace| == |t| + k + 2 && o.bytes == []
    && NackAt(w, o.trace, |t| + k + 1) && (forall m: nat :: |t| < m <= |t| + k ==> !NackAt(w, o.trace, m))
    && var c := o.trace[|t| + k + 1]; c.stop && !c.write && !c.read && !c.start
  }

  lemma SamePrefix(w: World, t: seq<Cmd>, u: seq<Cmd>)
    requires t <= u
    ensures forall m: nat :: m <= |t| ==> NackAt(w, t, m) == NackAt(w, u, m)
  {
    forall m: nat | m <= |t|
      ensures NackAt(w, t, m) == NackAt(w, u, m)
    {
      assert t[..m] == u[..m];
    }
  }

  /** One more command that is acknowledged. */
  lemma AckedOne(w: World, t0: nat, t: seq<Cmd>, c: Cmd)
    requires t0 <= |t| && AckedSince(w, t, t0) && !w.nack(t + [c])
    ensures AckedSince(w, t + [c], t0)
  {
    SamePrefix(w, t, t + [c]);
    assert (t + [c])[..|t| + 1] == t + [c];
  }

  /** One more command that is refused, and the STOP after it. */
  lemma RefusedOne(w: World, t0: seq<Cmd>, t: seq<Cmd>, c: Cmd, rc: int)
    requires |t0| <= |t| && AckedSince(w, t, |t0|) && w.nack(t + [c])
    ensures RefusedAt(w, t0, Abandon(t + [c], rc), |t| - |t0|)
  {
    var u := Abandon(t + [c], rc).trace;
    SamePrefix(w, t, u);
    assert u[..|t| + 1] == t + [c];
  }

  lemma SelectRefused(w: World, t: seq<Cmd>, device: Byte, index: Byte)
    ensures var o := Select(w, t, device, index);
      && o.rc in {0, 1, 2} && (o.rc == SUCCESS ==> |o.trace| == |t| + 2 && AckedSince(w, o.trace, |t|))
      && (o.rc == 1 ==> RefusedAt(w, t, o, 0)) && (o.rc == 2 ==> RefusedAt(w, t, o, 1))
  {
    var a, d := Address(ForWriting(device)), Data(index, false);
    if w.nack(t + [a]) {
      RefusedOne(w, t, t, a, ENODEV);
    } else {
      AckedOne(w, |t|, t, a);
      if w.nack(t + [a] + [d]) {
        RefusedOne(w, t, t + [a], d, EBADACK);
      } else {
        AckedOne(w, |t|, t + [a], d);
      }
    }
  }

  lemma {:induction false} SendAllRefused(w: World, t0: seq<Cmd>, t: seq<Cmd>, values: seq<Byte>) returns (k: nat)
    requires |t0| <= |t| && AckedSince(w, t, |t0|)
    ensures var o := SendAll(w, t, values);
      && (o.rc == SUCCESS ==> |o.trace| == |t| + |values| && AckedSince(w, o.trace, |t0|))
      && (o.rc != SUCCESS ==> o.rc == 2 && k < |values| && RefusedAt(w, t0, o, |t| - |t0| + k))
    decreases |values|
  {
    k := 0;
    if values != [] {
      var c := Data(values[0], |values| == 1);
      if w.nack(t + [c]) {
        RefusedOne(w, t0, t, c, EBADACK);
      } else {
        AckedOne(w, |t0|, t, c);
        var i := SendAllRefused(w, t0, t + [c], values[1..]);
        k := i + 1;
      }
    }
  }

  /** A write answers 1 iff its first byte, the address, was refused, and 2 iff the index or a byte of the payload was;
      after the refused byte there is a STOP and nothing else. */
  lemma WriteRefused(w: World, t: seq<Cmd>, device: Byte, index: Byte, values: seq<Byte>) returns (k: nat)
    ensures var o := WriteArray(w, t, device, index, values);
      if o.rc == SUCCESS then |o.trace| == |t| + 2 + |values| && AckedSince(w, o.trace, |t|)
      else k < 2 + |values| && RefusedAt(w, t, o, k) && o.rc == if k == 0 then 1 else 2
  {
    SelectRefused(w, t, device, index);
    var s := Select(w, t, device, index);
    k := if s.rc == 1 then 0 else 1;
    if s.rc == SUCCESS {
      var i := SendAllRefused(w, t, s.trace, values);
      k := i + 2;
    }
  }

  /** A read answers 1 iff one of the two addresses was refused, and 2 iff the index was; after the refused byte there
      is a STOP and nothing else. */
  lemma ReadRefused(w: World, t: seq<Cmd>, device: Byte, index: Byte, size: nat) returns (k: nat)
    ensures var o := ReadArray(w, t, device, index, size);
      && o.rc in {0, 1, 2}
      && (o.rc != SUCCESS ==> k < 3 && RefusedAt(w, t, o, k) && o.rc == if k == 1 then 2 else 1)
  {
    SelectRefused(w, t, device, index);
    var s := Select(w, t, device, index);
    k := if s.rc == 1 then 0 else 1;
    if s.rc == SUCCESS {
      k := 2;
      var c := Address(ForReading(device));
      if w.nack(s.trace + [c]) {
        RefusedOne(w, t, s.trace, c, ENODEV);
      } else {
        FetchAllSucceeds(w, s.trace + [c], size, []);
      }
    }
  }

  lemma {:induction false} FetchAllSucceeds(w: World, t: seq<Cmd>, n: nat, got: seq<Byte>)
    ensures FetchAll(w, t, n, got).rc == SUCCESS
    decreases n
  {
    if n > 0 {
      var t1 := t + [Fetch(n == 1)];
      FetchAllSucceeds(w, t1, n - 1, got + [w.input(t1)]);
    }
  }

  /** The two addresses are the device's own with the direction bit cleared and set. */
  lemma AddressesOf(device: Byte)
    ensures ForWriting(device) / 2 == ForReading(device) / 2 == device / 2
    ensures ForWriting(device) % 2 == 0 && ForReading(device) % 2 == 1
  {
  }

  // A device with 16-bit registers, as the camera has: the index is sent first, then each register goes over the
  // bus high byte first, and the index moves on after each.

  type Regs = r: seq<Word16> | |r| == 256 witness seq(256, _ => 0)

  datatype Phase = Off | WantIndex | WantHigh | WantLow(high: Byte) | GiveHigh | GiveLow

  datatype Slave = Slave(address: Byte, regs: Regs, pointer: Byte, phase: Phase)

  function Joined(high: Byte, low: Byte): Word16 { 256 * high + low }
  function High(x: Word16): Byte { x / 256 }
  function Low(x: Word16): Byte { x % 256 }

  function Advance(s: Slave, c: Cmd): Slave
  {
    var next := (s.pointer + 1) % 256;
    if c.start then
      if ForWriting(c.data) != s.address then s.(phase := Off)
      else if c.data % 2 == 0 then s.(phase := WantIndex)
      else s.(phase := GiveHigh)
    else if c.write then
      match s.phase
      case WantIndex => s.(pointer := c.data, phase := WantHigh)
      case WantHigh => s.(phase := WantLow(c.data))
      case WantLow(high) => s.(regs := s.regs[s.pointer := Joined(high, c.data)], pointer := next, phase := WantHigh)
      case _ => s
    else if c.read then
      match s.phase
      case GiveHigh => s.(phase := GiveLow)
      case GiveLow => s.(pointer := next, phase := GiveHigh)
      case _ => s
    else s
  }

  function SlaveNext(s: Slave, c: Cmd): Slave
  {
    if c.stop then Advance(s, c).(phase := Off) else Advance(s, c)
  }

  function SlaveAfter(s: Slave, t: seq<Cmd>): Slave
  {
    if t == [] then s else SlaveNext(SlaveAfter(s, t[..|t| - 1]), t[|t| - 1])
  }

  /** The slave acknowledges its address and every byte it is sent while addressed for writing. */
  predicate Refuses(s: Slave, c: Cmd)
  {
    if c.start then ForWriting(c.data) != s.address else s.phase in {Off, GiveHigh, GiveLow}
  }

  function Gives(s: Slave): Byte
  {
    match s.phase
    case GiveHigh => High(s.regs[s.pointer])
    case GiveLow => Low(s.regs[s.pointer])
    case _ => 255
  }

  /** A bus with this slave alone on it. */
  function WorldOf(s: Slave): World
  {
    World(t => t != [] && Refuses(SlaveAfter(s, t[..|t| - 1]), t[|t| - 1]),
          t => if t == [] then 255 else Gives(SlaveAfter(s, t[..|t| - 1])))
  }

  lemma SlaveStep(s: Slave, t: seq<Cmd>, c: Cmd)
    ensures SlaveAfter(s, t + [c]) == SlaveNext(SlaveAfter(s, t), c)
    ensures WorldOf(s).nack(t + [c]) == Refuses(SlaveAfter(s, t), c)
    ensures WorldOf(s).input(t + [c]) == Gives(SlaveAfter(s, t))
    ensures SlaveAfter(s, t).address == s.address
  {
    assert (t + [c])[..|t|] == t;
    AddressStays(s, t);
  }

  lemma {:induction false} AddressStays(s: Slave, t: seq<Cmd>)
    ensures SlaveAfter(s, t).address == s.address
  {
    if t != [] {
      AddressStays(s, t[..|t| - 1]);
    }
  }

  /** The two addresses of a device differ in the direction bit only. */
  lemma AddressParity(device: Byte)
    ensures ForWriting(ForReading(device)) == ForWriting(ForWriting(device)) == ForWriting(device)
    ensures ForReading(device) % 2 == 1 && ForWriting(device) % 2 == 0
  {
  }

  /** Addressing the slave, or another device. */
  lemma AddressSlave(s: Slave, t: seq<Cmd>, byte: Byte)
    ensures var mine := ForWriting(byte) == s.address;
      && WorldOf(s).nack(t + [Address(byte)]) == !mine
      && SlaveAfter(s, t + [Address(byte)])
         == SlaveAfter(s, t).(phase := if !mine then Off else if byte % 2 == 0 then WantIndex else GiveHigh)
  {
    SlaveStep(s, t, Address(byte));
  }

  lemma StopSlave(s: Slave, t: seq<Cmd>)
    ensures SlaveAfter(s, t + [StopOnly()]) == SlaveAfter(s, t).(phase := Off)
  {
    SlaveStep(s, t, StopOnly());
  }

  lemma IndexSlave(s: Slave, t: seq<Cmd>, index: Byte)
    requires SlaveAfter(s, t).phase == WantIndex
    ensures !WorldOf(s).nack(t + [Data(index, false)])
    ensures SlaveAfter(s, t + [Data(index, false)]) == SlaveAfter(s, t).(pointer := index, phase := WantHigh)
  {
    SlaveStep(s, t, Data(index, false));
  }

  /** Selecting a register of the slave. */
  lemma SelectSlave(s: Slave, t: seq<Cmd>, device: Byte, index: Byte)
    ensures var o := Select(WorldOf(s), t, device, index);
      if ForWriting(device) == s.address then
        o.rc == SUCCESS && SlaveAfter(s, o.trace) == SlaveAfter(s, t).(pointer := index, phase := WantHigh)
      else
        o.rc == ENODEV && SlaveAfter(s, o.trace) == SlaveAfter(s, t).(phase := Off)
  {
    var w, t1 := WorldOf(s), t + [Address(ForWriting(device))];
    AddressParity(device);
    AddressSlave(s, t, ForWriting(device));
    if ForWriting(device) == s.address {
      assert SlaveAfter(s, t1) == SlaveAfter(s, t).(phase := WantIndex);
      IndexSlave(s, t1, index);
      assert Select(w, t, device, index) == Outcome(t1 + [Data(index, false)], SUCCESS, []);
    } else {
      StopSlave(s, t1);
      assert Select(w, t, device, index) == Outcome(t1 + [StopOnly()], ENODEV, []);
    }
  }

  lemma SendTwo(s: Slave, t: seq<Cmd>, high: Byte, low: Byte)
    requires SlaveAfter(s, t).phase == WantHigh
    ensures var o := SendAll(WorldOf(s), t, [high, low]); var cur := SlaveAfter(s, t);
      o.rc == SUCCESS && SlaveAfter(s, o.trace).regs == cur.regs[cur.pointer := Joined(high, low)]
  {
    var w, t1 := WorldOf(s), t + [Data(high, false)];
    SlaveStep(s, t, Data(high, false));
    assert SlaveAfter(s, t1) == SlaveAfter(s, t).(phase := WantLow(high));
    SlaveStep(s, t1, Data(low, true));
    assert [high, low][1..] == [low] && [low][1..] == [];
    assert SendAll(w, t, [high, low]) == SendAll(w, t1, [low]);
    assert SendAll(w, t1, [low]) == Outcome(t1 + [Data(low, true)], SUCCESS, []);
  }

  lemma FetchTwo(s: Slave, t: seq<Cmd>)
    requires SlaveAfter(s, t).phase == GiveHigh
    ensures var o := FetchAll(WorldOf(s), t, 2, []); var cur := SlaveAfter(s, t);
      && o.rc == SUCCESS && SlaveAfter(s, o.trace).regs == cur.regs
      && o.bytes == [High(cur.regs[cur.pointer]), Low(cur.regs[cur.pointer])]
  {
    var w, t1 := WorldOf(s), t + [Fetch(false)];
    var x := SlaveAfter(s, t).regs[SlaveAfter(s, t).pointer];
    SlaveStep(s, t, Fetch(false));
    assert SlaveAfter(s, t1) == SlaveAfter(s, t).(phase := GiveLow);
    SlaveStep(s, t1, Fetch(true));
    assert w.input(t1) == High(x) && w.input(t1 + [Fetch(true)]) == Low(x);
    FetchTwoBytes(w, t, High(x), Low(x));
  }

  lemma FetchTwoBytes(w: World, t: seq<Cmd>, high: Byte, low: Byte)
    requires w.input(t + [Fetch(false)]) == high && w.input(t + [Fetch(false)] + [Fetch(true)]) == low
    ensures FetchAll(w, t, 2, []) == Outcome(t + [Fetch(false)] + [Fetch(true)], SUCCESS, [high, low])
  {
    var t1 := t + [Fetch(false)];
    assert [] + [high] == [high] && [high] + [low] == [high, low];
    assert FetchAll(w, t, 2, []) == FetchAll(w, t1, 1, [high]);
    assert FetchAll(w, t1, 1, [high]) == FetchAll(w, t1 + [Fetch(true)], 0, [high, low]);
  }

  /** Writing two bytes stores one register and changes no other; it fails, changing none, iff the address is not
      the slave's. */
  lemma WriteStores(s: Slave, t: seq<Cmd>, device: Byte, index: Byte, high: Byte, low: Byte)
    ensures var o := WriteArray(WorldOf(s), t, device, index, [high, low]);
      var before, after := SlaveAfter(s, t).regs, SlaveAfter(s, o.trace).regs;
      if ForWriting(device) == s.address then o.rc == SUCCESS && after == before[index := Joined(high, low)]
      else o.rc == ENODEV && after == before
  {
    SelectSlave(s, t, device, index);
    if ForWriting(device) == s.address {
      SendTwo(s, Select(WorldOf(s), t, device, index).trace, high, low);
    }
  }

  /** Reading two bytes yields one register and changes none. */
  lemma ReadYields(s: Slave, t: seq<Cmd>, device: Byte, index: Byte)
    ensures var o := ReadArray(WorldOf(s), t, device, index, 2);
      var regs := SlaveAfter(s, t).regs;
      SlaveAfter(s, o.trace).regs == regs &&
      if ForWriting(device) == s.address then o.rc == SUCCESS && o.bytes == [High(regs[index]), Low(regs[index])]
      else o.rc == ENODEV
  {
    SelectSlave(s, t, device, index);
    if ForWriting(device) == s.address {
      var t2 := Select(WorldOf(s), t, device, index).trace;
      var t3 := t2 + [Address(ForReading(device))];
      AddressParity(device);
      AddressSlave(s, t2, ForReading(device));
      assert SlaveAfter(s, t3) == SlaveAfter(s, t).(pointer := index, phase := GiveHigh);
      FetchTwo(s, t3);
      assert ReadArray(WorldOf(s), t, device, index, 2) == FetchAll(WorldOf(s), t3, 2, []);
    }
  }

  lemma JoinSplit(x: Word16)
    ensures Joined(High(x), Low(x)) == x
  {
  }

  /** The first byte of a register is the high one. */
  lemma HighByteFirst(high: Byte, low: Byte)
    ensures Joined(high, low) == 256 * high + low && High(256 * high + low) == high && Low(256 * high + low) == low
  {
  }

  /** A register written and read back: both succeed iff the address is the slave's; then the value comes back and
      no other register has changed. */
  lemma RegisterRoundTrip(s: Slave, t: seq<Cmd>, device: Byte, index: Byte, x: Word16)
    ensures var a := WriteArray(WorldOf(s), t, device, index, [High(x), Low(x)]);
      var b := ReadArray(WorldOf(s), a.trace, device, index, 2);
      var before, after := SlaveAfter(s, t).regs, SlaveAfter(s, b.trace).regs;
      if ForWriting(device) == s.address then
        a.rc == b.rc == SUCCESS && b.bytes == [High(x), Low(x)] && after == before[index := x]
      else
        a.rc == b.rc == ENODEV && after == before
  {
    WriteStores(s, t, device, index, High(x), Low(x));
    ReadYields(s, WriteArray(WorldOf(s), t, device, index, [High(x), Low(x)]).trace, device, index);
    JoinSplit(x);
  }

  // The master, in place.

  class Master {
    const world: World
    var data: Byte      // the data register
    var nack: bool      // the last acknowledge received, as the status register shows it
    var trace: seq<Cmd>  // every command the bus has seen

    method WriteControl(c: Cmd)
      requires c.write ==> c.data == data
      modifies this
      ensures trace == old(trace) + [c]
      ensures nack == if c.write then world.nack(trace) else old(nack)
      ensures data == if c.read then world.input(trace) else old(data)
    {
      trace := trace + [c];
      if c.write {
        nack := world.nack(trace);
      }
      if c.read {
        data := world.input(trace);
      }
    }

    method SetDataControl(byte: Byte, c: Cmd)
      requires c.write && !c.read && c.data == byte
      modifies this
      ensures trace == old(trace) + [c] && nack == world.nack(trace)
    {
      data := byte;
      WriteControl(c);
    }

    method GetDataSetControl(c: Cmd) returns (byte: Byte)
      requires c.read && !c.write
      modifies this
      ensures trace == old(trace) + [c] && byte == world.input(trace)
    {
      WriteControl(c);
      byte := data;
    }

    /** Give up with a STOP. */
    method GiveUp(rc: int) returns (r: int)
      modifies this
      ensures r == rc && trace == old(trace) + [StopOnly()]
    {
      WriteControl(StopOnly());
      r := rc;
    }

    method SelectRegister(device: Byte, index: Byte) returns (rc: int)
      modifies this
      ensures trace == Select(world, old(trace), device, index).trace && rc == Select(world, old(trace), device, index).rc
    {
      SetDataControl(ForWriting(device), Address(ForWriting(device)));
      if nack {
        rc := GiveUp(ENODEV);
        return;
      }
      SetDataControl(index, Data(index, false));
      if nack {
        rc := GiveUp(EBADACK);
        return;
      }
      rc := SUCCESS;
    }

    /** `i2c_write_array`. */
    method Write(device: Byte, index: Byte, value: array<Byte>) returns (rc: int)
      modifies this
      ensures var o := WriteArray(world, old(trace), device, index, value[..]); trace == o.trace && rc == o.rc
    {
      rc := SelectRegister(device, index);
      if rc != SUCCESS {
        return;
      }
      ghost var all := SendAll(world, trace, value[..]);
      assert value[0..] == value[..];
      var i := 0;
      while i < value.Length
        invariant 0 <= i <= value.Length && rc == SUCCESS && all == SendAll(world, trace, value[i..])
      {
        assert value[i..][1..] == value[i + 1..];
        SetDataControl(value[i], Data(value[i], i == value.Length - 1));
        if nack {
          rc := GiveUp(EBADACK);
          return;
        }
        i := i + 1;
      }
    }

    /** `i2c_read_array`: fills `value` when it succeeds, and leaves it alone when it does not. */
    method Read(device: Byte, index: Byte, value: array<Byte>) returns (rc: int)
      modifies this, value
      ensures var o := ReadArray(world, old(trace), device, index, value.Length);
        trace == o.trace && rc == o.rc && value[..] == if rc == SUCCESS then o.bytes else old(value[..])
    {
      rc := SelectRegister(device, index);
      if rc != SUCCESS {
        return;
      }
      SetDataControl(ForReading(device), Address(ForReading(device)));
      if nack {
        rc := GiveUp(ENODEV);
        return;
      }
      ghost var all := FetchAll(world, trace, value.Length, []);
      var i := 0;
      while i < value.Length
        invariant 0 <= i <= value.Length && rc == SUCCESS
        invariant all == FetchAll(world, trace, value.Length - i, value[..i])
      {
        ghost var got := value[..i];
        value[i] := GetDataSetControl(Fetch(i == value.Length - 1));
        assert value[..i + 1] == got + [value[i]];
        i := i + 1;
      }
      assert value[..value.Length] == value[..];
    }

    /** `trdb_d5m_write`. */
    method WriteRegister(device: Byte, index: Byte, x: Word16) returns (ok: bool)
      modifies this
      ensures var o := WriteArray(world, old(trace), device, index, [High(x), Low(x)]); trace == o.trace && ok == (o.rc == SUCCESS)
    {
      var bytes := new Byte[2];
      bytes[0], bytes[1] := High(x), Low(x);
      assert bytes[..] == [High(x), Low(x)];
      var rc := Write(device, index, bytes);
      ok := rc == SUCCESS;
    }

    /** `trdb_d5m_read`; `x` is untouched unless the read succeeds. */
    method ReadRegister(device: Byte, index: Byte, x0: Word16) returns (ok: bool, x: Word16)
      modifies this
      ensures var o := ReadArray(world, old(trace), device, index, 2);
        trace == o.trace && ok == (o.rc == SUCCESS) && (ok ==> |o.bytes| == 2) &&
        x == if ok then Joined(o.bytes[0], o.bytes[1]) else x0
    {
      ReadReceives(world, trace, device, index, 2);
      var bytes := new Byte[2](_ => 0);
      var rc := Read(device, index, bytes);
      ok, x := rc == SUCCESS, x0;
      if ok {
        x := Joined(bytes[0], bytes[1]);
      }
    }

    /** `Write_and_Read_I2C`.  Against the register slave it succeeds iff the address is the slave's, and then the
        register holds the value and no other register has changed. */
    method WriteAndRead(device: Byte, index: Byte, x: Word16, ghost s: Slave) returns (ok: bool)
      modifies this
      ensures old(BusAfter(trace)) == Free ==> BusAfter(trace) == Free
      ensures world == WorldOf(s) ==>
        && (ok <==> ForWriting(device) == s.address)
        && SlaveAfter(s, trace).regs == if ok then SlaveAfter(s, old(trace)).regs[index := x] else SlaveAfter(s, old(trace)).regs
    {
      ghost var t := trace;
      var wrote := WriteRegister(device, index, x);
      ghost var t1 := trace;
      var read, back := ReadRegister(device, index, 0);
      ok := wrote && read && back == x;
      if BusAfter(t) == Free {
        WriteIsLegal(world, t, device, index, [High(x), Low(x)]);
        ReadIsLegal(world, t1, device, index, 2);
      }
      if world == WorldOf(s) {
        RegisterRoundTrip(s, t, device, index, x);
        JoinSplit(x);
      }
    }
  }
}
