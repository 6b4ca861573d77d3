/**
 * The feed processors of main.cpp (processData, processSolarProbabilities,
 * processMagData, processKpIndexData), the per-cycle dispatch of main's loop, and
 * the relay of each reading to the two local listeners.
 *
 * The process-wide state is the object Catcher: the slots of lastValidData and the
 * datagrams handed to the transport so far (each sendOSCMessage call appends one).
 * The reading of one cycle (currentData) is a fresh SolarData.
 *
 * Number conversions the model cannot reproduce exactly are parameters: stof and
 * stoi (None where they throw) and the fixed-precision decimal formatting.
 */
module Feeds {
  import opened Options
  import opened Json
  import opened FieldCache
  import Osc
  import Decimal

  const Localhost: string := "127.0.0.1"
  const PrimaryPort: int := 6000
  const SecondaryPort: int := 6001

  /**
   * std::fixed << std::setprecision(n): a reading formatted with n decimals. Its text is
   * a sign, digits and a point (or "nan"/"inf"), so it never holds a NUL.
   */
  type Formatter = f: (real, nat) -> string | forall v, n :: Osc.NulFree(f(v, n)) witness (v: real, n: nat) => ""

  /** std::stof, std::stoi (None where they throw) and the fixed-precision formatting. */
  datatype Numerics = Numerics(
    stof: string -> Option<real>,
    stoi: string -> Option<int>,
    fixed: Formatter)

  /** One datagram handed to the transport: destination, the reading it carries, and its bytes. */
  datatype Datagram = Datagram(host: string, port: int, address: string, argument: string, packet: seq<char>)

  /** What fetchData returned for one feed: an empty body, or text that json::parse rejects or accepts. */
  datatype Body = Empty | Malformed | Document(doc: Value)

  /** The four fetches of one cycle. */
  datatype Fetches = Fetches(plasma: Body, probabilities: Body, mag: Body, kpIndex: Body)

  function Parsed(body: Body): Option<Value>
  {
    if body.Document? then Some(body.doc) else None
  }

  /** The datagram sendOSCMessage hands to the transport. */
  function Outgoing(port: int, address: string, argument: string): Datagram
  {
    Datagram(Localhost, port, address, argument, Osc.Encode(address, argument))
  }

  /** One reading relayed to every destination: the same bytes to port 6000, then to port 6001. */
  function Fanout(address: string, argument: string): (r: seq<Datagram>)
    ensures |r| == 2 && r[0].port == PrimaryPort && r[1].port == SecondaryPort
    ensures r[0].packet == r[1].packet && r[1] == r[0].(port := SecondaryPort)
    ensures forall d :: d in r ==> d.host == Localhost && d.address == address && d.argument == argument
    ensures forall d :: d in r ==> d.packet == Osc.Encode(address, argument)
  {
    [Outgoing(PrimaryPort, address, argument), Outgoing(SecondaryPort, address, argument)]
  }

  /** A float metric after extraction: relayed, formatted, while its slot is valid; nothing otherwise. */
  function RelayFloat(address: string, slot: Slot<real>, precision: nat, fixed: Formatter): seq<Datagram>
  {
    if slot.valid then Fanout(address, fixed(slot.value, precision)) else []
  }

  // ---------------------------------------------------------------------------
  // Container shapes

  /**
   * The row a table feed (plasma, magnetometer, Kp) reads its metrics from: the last
   * element of a document with at least two elements. None where the processor falls
   * back for the whole feed: the body did not parse, the document has fewer than two
   * elements, or positional indexing throws (an object document, or a last element
   * that is neither an array nor null).
   */
  function LatestRow(parsed: Option<Value>): (row: Option<Value>)
    ensures row.Some? ==> parsed.Some? && parsed.value.Arr? && |parsed.value.elems| >= 2
    ensures row.Some? ==> row.value == parsed.value.elems[|parsed.value.elems| - 1]
    ensures row.Some? <==> parsed.Some? && Size(parsed.value) >= 2 && parsed.value.Arr?
                           && Index(parsed.value.elems[|parsed.value.elems| - 1], 0).Some?
  {
    match parsed
    case None => None
    case Some(doc) =>
      if Size(doc) < 2 then None
      else
        match doc
        case Arr(e) => if Index(e[|e| - 1], 0).Some? then Some(e[|e| - 1]) else None
        case _ => None
  }

  /**
   * The record the probabilities feed reads: the first element of a non-empty array.
   * None where the processor falls back: no parse, not a non-empty array, or a first
   * element whose member lookup throws (neither an object nor null).
   */
  function TodayRecord(parsed: Option<Value>): (record: Option<Value>)
    ensures record.Some? <==> parsed.Some? && parsed.value.Arr? && |parsed.value.elems| > 0
                              && Member(parsed.value.elems[0], "").Some?
    ensures record.Some? ==> record.value == parsed.value.elems[0]
  {
    match parsed
    case None => None
    case Some(doc) =>
      if doc.Arr? && |doc.elems| > 0 && Member(doc.elems[0], "").Some? then Some(doc.elems[0]) else None
  }

  /** The fresh float a table feed obtains from one column of its row, if any. */
  function ColumnValue(row: Option<Value>, column: nat, stof: string -> Option<real>): Option<real>
  {
    match row
    case None => None
    case Some(r) =>
      match Index(r, column)
      case None => None
      case Some(cell) => FreshFloat(cell, stof)
  }

  /** The fresh integer the probabilities feed obtains from one key of its record, if any. */
  function KeyValue(record: Option<Value>, key: string, stoi: string -> Option<int>): Option<int>
  {
    match record
    case None => None
    case Some(r) =>
      match Member(r, key)
      case None => None
      case Some(v) => FreshInt(v, stoi)
  }

  // ---------------------------------------------------------------------------
  // The metrics and what one cycle sends

  datatype FloatMetric = Density | Speed | Temperature | LonGsm | Bt | BzGsm | Kp
  datatype IntMetric = MClass | XClass

  function FloatAddress(m: FloatMetric): string
  {
    match m
    case Density => "/dens"
    case Speed => "/speed"
    case Temperature => "/temp"
    case LonGsm => "/phiGSM"
    case Bt => "/bt"
    case BzGsm => "/bzGSM"
    case Kp => "/kp"
  }

  function IntAddress(m: IntMetric): string
  {
    match m
    case MClass => "/m_xray"
    case XClass => "/x_xray"
  }

  /** What one cycle's extraction obtains for a float metric: its feed, its row, its column. */
  function FloatOutcome(f: Fetches, m: FloatMetric, stof: string -> Option<real>): Option<real>
  {
    match m
    case Density => ColumnValue(LatestRow(Parsed(f.plasma)), 1, stof)
    case Speed => ColumnValue(LatestRow(Parsed(f.plasma)), 2, stof)
    case Temperature => ColumnValue(LatestRow(Parsed(f.plasma)), 3, stof)
    case LonGsm => ColumnValue(LatestRow(Parsed(f.mag)), 4, stof)
    case Bt => ColumnValue(LatestRow(Parsed(f.mag)), 6, stof)
    case BzGsm => ColumnValue(LatestRow(Parsed(f.mag)), 3, stof)
    case Kp => ColumnValue(LatestRow(Parsed(f.kpIndex)), 1, stof)
  }

  /** What one cycle's extraction obtains for a flare probability: record 0, its one-day key. */
  function IntOutcome(f: Fetches, m: IntMetric, stoi: string -> Option<int>): Option<int>
  {
    match m
    case MClass => KeyValue(TodayRecord(Parsed(f.probabilities)), "m_class_1_day", stoi)
    case XClass => KeyValue(TodayRecord(Parsed(f.probabilities)), "x_class_1_day", stoi)
  }

  /** Extending a run by one cycle extends every history by that cycle's outcome. */
  lemma HistorySnoc(cycles: seq<Fetches>, k: nat, num: Numerics)
    requires k < |cycles|
    ensures forall m :: FloatHistory(cycles[..k + 1], m, num.stof)
                        == FloatHistory(cycles[..k], m, num.stof) + [FloatOutcome(cycles[k], m, num.stof)]
    ensures forall m :: IntHistory(cycles[..k + 1], m, num.stoi)
                        == IntHistory(cycles[..k], m, num.stoi) + [IntOutcome(cycles[k], m, num.stoi)]
  {
    assert cycles[..k + 1][..k] == cycles[..k];
  }

  function FloatHistory(cycles: seq<Fetches>, m: FloatMetric, stof: string -> Option<real>): seq<Option<real>>
  {
    seq(|cycles|, k requires 0 <= k < |cycles| => FloatOutcome(cycles[k], m, stof))
  }

  function IntHistory(cycles: seq<Fetches>, m: IntMetric, stoi: string -> Option<int>): seq<Option<int>>
  {
    seq(|cycles|, k requires 0 <= k < |cycles| => IntOutcome(cycles[k], m, stoi))
  }

  /** The plasma feed's datagrams, given its row and its slots after extraction. */
  function PlasmaSends(row: Option<Value>, density: Slot<real>, speed: Slot<real>, temperature: Slot<real>,
                       fixed: Formatter): seq<Datagram>
  {
    if row.None? then []
    else RelayFloat("/dens", density, 3, fixed) + RelayFloat("/speed", speed, 2, fixed)
         + RelayFloat("/temp", temperature, 3, fixed)
  }

  /**
   * The probabilities feed's datagrams. As main.cpp:329 has it, the copy of /x_xray
   * for port 6001 carries the m-class reading, not the x-class one.
   */
  function ProbabilitySends(record: Option<Value>, mClass: Slot<int>, xClass: Slot<int>): seq<Datagram>
  {
    if record.None? then [] else ProbabilityRelays(mClass, xClass)
  }

  /** The m-class pair while its slot is valid, then the x-class pair while its slot is valid. */
  function ProbabilityRelays(mClass: Slot<int>, xClass: Slot<int>): seq<Datagram>
  {
    (if mClass.valid then Fanout("/m_xray", Decimal.IntToString(mClass.value)) else [])
    + (if xClass.valid then XrayPair(Decimal.IntToString(xClass.value), Decimal.IntToString(mClass.OrZero(0)))
       else [])
  }

  /** The /x_xray datagrams: one argument for port 6000, another for port 6001. */
  function XrayPair(primary: string, secondary: string): seq<Datagram>
  {
    [Outgoing(PrimaryPort, "/x_xray", primary), Outgoing(SecondaryPort, "/x_xray", secondary)]
  }

  /** The magnetometer feed's datagrams, given its row and its slots after extraction. */
  function MagSends(row: Option<Value>, lonGsm: Slot<real>, bt: Slot<real>, bzGsm: Slot<real>,
                    fixed: Formatter): seq<Datagram>
  {
    if row.None? then []
    else RelayFloat("/phiGSM", lonGsm, 3, fixed) + RelayFloat("/bt", bt, 2, fixed)
         + RelayFloat("/bzGSM", bzGsm, 3, fixed)
  }

  /** The Kp feed's datagrams, given its row and its slot after extraction. */
  function KpSends(row: Option<Value>, kp: Slot<real>, fixed: Formatter): seq<Datagram>
  {
    if row.None? then [] else RelayFloat("/kp", kp, 2, fixed)
  }

  /** lastValidData: the slot of every metric. */
  datatype Cache = Cache(
    density: Slot<real>, speed: Slot<real>, temperature: Slot<real>,
    mClass: Slot<int>, xClass: Slot<int>,
    lonGsm: Slot<real>, bt: Slot<real>, bzGsm: Slot<real>, kp: Slot<real>)
  {
    function Float(m: FloatMetric): Slot<real>
    {
      match m
      case Density => density
      case Speed => speed
      case Temperature => temperature
      case LonGsm => lonGsm
      case Bt => bt
      case BzGsm => bzGsm
      case Kp => kp
    }

    function Int(m: IntMetric): Slot<int>
    {
      match m
      case MClass => mClass
      case XClass => xClass
    }

    /** What a reading shows for every metric when it falls back to this cache. */
    function Report(): Reading
    {
      Reading(density.OrZero(0.0), speed.OrZero(0.0), temperature.OrZero(0.0),
              mClass.OrZero(0), xClass.OrZero(0),
              lonGsm.OrZero(0.0), bt.OrZero(0.0), bzGsm.OrZero(0.0), kp.OrZero(0.0))
    }
  }

  /** The cache at start-up: every slot zero and invalid. */
  const Blank: Cache := Cache(Slot(0.0, false), Slot(0.0, false), Slot(0.0, false), Slot(0, false), Slot(0, false),
                              Slot(0.0, false), Slot(0.0, false), Slot(0.0, false), Slot(0.0, false))

  /** One cycle's reading (currentData): the value of every metric, fresh or fallen back. */
  datatype Reading = Reading(
    density: real, speed: real, temperature: real,
    mClass: int, xClass: int,
    lonGsm: real, bt: real, bzGsm: real, kp: real)

  /** A default-constructed reading: every value zero. */
  const Zero: Reading := Reading(0.0, 0.0, 0.0, 0, 0, 0.0, 0.0, 0.0, 0.0)

  /** The datagrams of one cycle, given the cache after it, in feed order. */
  function CycleSends(c: Cache, f: Fetches, fixed: Formatter): seq<Datagram>
  {
    PlasmaSends(LatestRow(Parsed(f.plasma)), c.density, c.speed, c.temperature, fixed)
    + ProbabilitySends(TodayRecord(Parsed(f.probabilities)), c.mClass, c.xClass)
    + MagSends(LatestRow(Parsed(f.mag)), c.lonGsm, c.bt, c.bzGsm, fixed)
    + KpSends(LatestRow(Parsed(f.kpIndex)), c.kp, fixed)
  }

  /** The cache after one cycle: every slot refreshed by what its feed yielded. */
  function Refreshed(c: Cache, f: Fetches, num: Numerics): Cache
  {
    Cache(c.density.Refresh(FloatOutcome(f, Density, num.stof)), c.speed.Refresh(FloatOutcome(f, Speed, num.stof)),
          c.temperature.Refresh(FloatOutcome(f, Temperature, num.stof)),
          c.mClass.Refresh(IntOutcome(f, MClass, num.stoi)), c.xClass.Refresh(IntOutcome(f, XClass, num.stoi)),
          c.lonGsm.Refresh(FloatOutcome(f, LonGsm, num.stof)), c.bt.Refresh(FloatOutcome(f, Bt, num.stof)),
          c.bzGsm.Refresh(FloatOutcome(f, BzGsm, num.stof)), c.kp.Refresh(FloatOutcome(f, Kp, num.stof)))
  }

  /** The cache after a run of cycles. */
  function After(c: Cache, cycles: seq<Fetches>, num: Numerics): Cache
  {
    if cycles == [] then c else Refreshed(After(c, cycles[..|cycles| - 1], num), cycles[|cycles| - 1], num)
  }

  /** The datagrams of a run of cycles, cycle after cycle, each given the cache after it. */
  function RunSends(c: Cache, cycles: seq<Fetches>, num: Numerics): seq<Datagram>
  {
    if cycles == [] then []
    else RunSends(c, cycles[..|cycles| - 1], num) + CycleSends(After(c, cycles, num), cycles[|cycles| - 1], num.fixed)
  }

  /** Extending a run by one cycle: one more refresh of the cache, and that cycle's datagrams at the end. */
  lemma RunSnoc(c: Cache, cycles: seq<Fetches>, k: nat, num: Numerics)
    requires k < |cycles|
    ensures After(c, cycles[..k + 1], num) == Refreshed(After(c, cycles[..k], num), cycles[k], num)
    ensures RunSends(c, cycles[..k + 1], num)
            == RunSends(c, cycles[..k], num) + CycleSends(After(c, cycles[..k + 1], num), cycles[k], num.fixed)
  {
    assert cycles[..k + 1][..k] == cycles[..k];
  }

  /** One cycle refreshes each metric's slot by that metric's outcome, and touches nothing else. */
  lemma RefreshedSlots(c: Cache, f: Fetches, num: Numerics)
    ensures forall m :: Refreshed(c, f, num).Float(m) == c.Float(m).Refresh(FloatOutcome(f, m, num.stof))
    ensures forall m :: Refreshed(c, f, num).Int(m) == c.Int(m).Refresh(IntOutcome(f, m, num.stoi))
  {
    forall m: FloatMetric
      ensures Refreshed(c, f, num).Float(m) == c.Float(m).Refresh(FloatOutcome(f, m, num.stof))
    {
      match m
      case Density =>
      case Speed =>
      case Temperature =>
      case LonGsm =>
      case Bt =>
      case BzGsm =>
      case Kp =>
    }
  }

  /**
   * Over a run of cycles each slot evolves on its own: it ends as the replay of what
   * its feed yielded cycle by cycle, so it holds the last value that parsed and is valid
   * exactly when some cycle (or the start) made it so.
   */
  lemma {:induction false} AfterReplays(c: Cache, cycles: seq<Fetches>, num: Numerics)
    ensures forall m :: After(c, cycles, num).Float(m) == Replay(c.Float(m), FloatHistory(cycles, m, num.stof))
    ensures forall m :: After(c, cycles, num).Int(m) == Replay(c.Int(m), IntHistory(cycles, m, num.stoi))
  {
    if cycles != [] {
      var k := |cycles| - 1;
      AfterReplays(c, cycles[..k], num);
      RefreshedSlots(After(c, cycles[..k], num), cycles[k], num);
      HistorySnoc(cycles, k, num);
      assert cycles[..k + 1] == cycles;
    }
  }

  // ---------------------------------------------------------------------------
  // The send log invariant

  /** A datagram as sendOSCMessage produces it: to a local listener, carrying the encoding of its reading. */
  predicate WellFormed(d: Datagram)
  {
    && d.host == Localhost
    && (d.port == PrimaryPort || d.port == SecondaryPort)
    && Osc.NulFree(d.argument)
    && d.packet == Osc.Encode(d.address, d.argument)
  }

  /** An address may be relayed only under a metric whose slot in c is valid. */
  predicate Permits(c: Cache, address: string)
  {
    || (address == "/dens" && c.density.valid)
    || (address == "/speed" && c.speed.valid)
    || (address == "/temp" && c.temperature.valid)
    || (address == "/m_xray" && c.mClass.valid)
    || (address == "/x_xray" && c.xClass.valid)
    || (address == "/phiGSM" && c.lonGsm.valid)
    || (address == "/bt" && c.bt.valid)
    || (address == "/bzGSM" && c.bzGsm.valid)
    || (address == "/kp" && c.kp.valid)
  }

  /** No valid flag of c is lost in d. */
  predicate Grows(c: Cache, d: Cache)
  {
    && (c.density.valid ==> d.density.valid) && (c.speed.valid ==> d.speed.valid)
    && (c.temperature.valid ==> d.temperature.valid)
    && (c.mClass.valid ==> d.mClass.valid) && (c.xClass.valid ==> d.xClass.valid)
    && (c.lonGsm.valid ==> d.lonGsm.valid) && (c.bt.valid ==> d.bt.valid)
    && (c.bzGsm.valid ==> d.bzGsm.valid) && (c.kp.valid ==> d.kp.valid)
  }

  /** Every datagram of log is well formed and carries an address that v permits. */
  predicate Covered(log: seq<Datagram>, v: Cache)
  {
    forall i :: 0 <= i < |log| ==> WellFormed(log[i]) && Permits(v, log[i].address)
  }

  lemma CoveredConcat(a: seq<Datagram>, b: seq<Datagram>, v: Cache)
    requires Covered(a, v) && Covered(b, v)
    ensures Covered(a + b, v)
  {
    forall i | 0 <= i < |a + b| ensures WellFormed((a + b)[i]) && Permits(v, (a + b)[i].address) {
      if i < |a| {
        assert (a + b)[i] == a[i];
      } else {
        assert (a + b)[i] == b[i - |a|];
      }
    }
  }

  lemma AppendAssoc(a: seq<Datagram>, b: seq<Datagram>, c: seq<Datagram>)
    ensures a + b + c == a + (b + c)
  {
  }

  lemma CoveredWiden(log: seq<Datagram>, v: Cache, w: Cache)
    requires Covered(log, v) && Grows(v, w)
    ensures Covered(log, w)
  {
  }

  /** A relayed reading is well formed and permitted wherever its address is. */
  lemma FanoutCovered(address: string, value: string, v: Cache)
    requires Permits(v, address) && Osc.NulFree(value)
    ensures Covered(Fanout(address, value), v)
  {
    var r := Fanout(address, value);
    assert r[0] in r && r[1] in r;
  }

  /** The /x_xray pair of the probabilities feed, whatever readings its two copies carry. */
  lemma XrayPairCovered(primary: string, secondary: string, v: Cache)
    requires v.xClass.valid && Osc.NulFree(primary) && Osc.NulFree(secondary)
    ensures Covered(XrayPair(primary, secondary), v)
  {
  }

  // ---------------------------------------------------------------------------
  // Lemmas about what is relayed

  lemma IntToStringNulFree(i: int)
    ensures Osc.NulFree(Decimal.IntToString(i))
  {
    var s := Decimal.IntToString(i);
    forall k | 0 <= k < |s| ensures s[k] != Osc.Nul {
      if i < 0 && k > 0 {
        assert s[k] == s[1..][k - 1];
      }
    }
  }

  /**
   * The two /x_xray datagrams of a cycle carry the same bytes exactly when the m-class
   * reading handed on equals the x-class one: whenever the two probabilities differ,
   * the listener on port 6001 receives the m-class value under the x-class address.
   */
  lemma XrayCopiesAgreeIff(record: Option<Value>, mClass: Slot<int>, xClass: Slot<int>)
    requires record.Some? && xClass.valid
    ensures var s := ProbabilitySends(record, mClass, xClass);
      && |s| >= 2
      && s[|s| - 2].address == "/x_xray" && s[|s| - 2].port == PrimaryPort
      && s[|s| - 1].address == "/x_xray" && s[|s| - 1].port == SecondaryPort
      && (s[|s| - 2].packet == s[|s| - 1].packet <==> mClass.OrZero(0) == xClass.value)
  {
    var s := ProbabilitySends(record, mClass, xClass);
    var x, m := Decimal.IntToString(xClass.value), Decimal.IntToString(mClass.OrZero(0));
    assert s[|s| - 2] == Outgoing(PrimaryPort, "/x_xray", x);
    assert s[|s| - 1] == Outgoing(SecondaryPort, "/x_xray", m);
    if Osc.Encode("/x_xray", x) == Osc.Encode("/x_xray", m) {
      IntToStringNulFree(xClass.value);
      IntToStringNulFree(mClass.OrZero(0));
      Osc.EncodeArgumentInjective("/x_xray", x, m);
      Decimal.IntToStringInjective(xClass.value, mClass.OrZero(0));
    }
  }

  /**
   * Every address the processors use is longer than a multiple of four, so every
   * datagram they send decodes, under the OSC 1.0 rules, to its address and argument.
   */
  lemma MetricMessagesDecode(address: string, argument: string)
    requires address in {"/dens", "/speed", "/temp", "/phiGSM", "/bt", "/bzGSM", "/kp", "/m_xray", "/x_xray"}
    requires Osc.NulFree(argument)
    ensures Osc.Decode(Osc.Encode(address, argument)) == Some(Osc.Message(address, argument))
  {
    assert |address| % 4 != 0 && Osc.NulFree(address);
    Osc.DecodeEncode(address, argument);
  }

  /** Every datagram of a covered log decodes back to the address and reading it carries. */
  lemma LogDecodes(log: seq<Datagram>, v: Cache)
    requires Covered(log, v)
    ensures forall i :: 0 <= i < |log| ==>
      Osc.Decode(log[i].packet) == Some(Osc.Message(log[i].address, log[i].argument))
  {
    forall i | 0 <= i < |log|
      ensures Osc.Decode(log[i].packet) == Some(Osc.Message(log[i].address, log[i].argument))
    {
      assert WellFormed(log[i]) && Permits(v, log[i].address);
      MetricMessagesDecode(log[i].address, log[i].argument);
    }
  }

  /**
   * Once the X-ray class has been valid but the M-class never has, the copy of the
   * X-ray reading sent to the secondary port is the M-class placeholder "0".
   */
  lemma XrayZeroPlaceholder(record: Option<Value>, mClass: Slot<int>, xClass: Slot<int>)
    requires record.Some? && !mClass.valid && xClass.valid
    ensures ProbabilitySends(record, mClass, xClass)
      == [Outgoing(PrimaryPort, "/x_xray", Decimal.IntToString(xClass.value)),
          Outgoing(SecondaryPort, "/x_xray", "0")]
  {
    assert Decimal.IntToString(0) == "0";
    assert ProbabilitySends(record, mClass, xClass) == [] + XrayPair(Decimal.IntToString(xClass.value), "0");
  }

  // ---------------------------------------------------------------------------
  // What one cycle sends for each metric

  /** The datagrams of log that carry address, in log order. */
  function Carrying(log: seq<Datagram>, address: string): seq<Datagram>
  {
    if log == [] then []
    else (if log[0].address == address then [log[0]] else []) + Carrying(log[1..], address)
  }

  lemma {:induction false} CarryingConcat(a: seq<Datagram>, b: seq<Datagram>, address: string)
    ensures Carrying(a + b, address) == Carrying(a, address) + Carrying(b, address)
  {
    if a == [] {
      assert a + b == b;
    } else {
      CarryingConcat(a[1..], b, address);
      TailConcat(a, b);
    }
  }

  lemma EmptyAppends<T>(r: seq<T>)
    ensures r + [] + [] == r && [] + r + [] == r && [] + [] + r == r
  {
  }

  lemma TailConcat<T>(a: seq<T>, b: seq<T>)
    requires a != []
    ensures (a + b)[0] == a[0] && (a + b)[1..] == a[1..] + b
  {
  }

  lemma CarryingFanout(address: string, value: string, wanted: string)
    ensures Carrying(Fanout(address, value), wanted) == if address == wanted then Fanout(address, value) else []
  {
    var r := Fanout(address, value);
    var t := r[1..];
    assert t[1..] == [];
    assert Carrying(t, wanted) == if address == wanted then [t[0]] else [];
  }

  /** The metric each float address belongs to, its feed's row and the precision it is relayed with. */
  function FloatRow(f: Fetches, m: FloatMetric): Option<Value>
  {
    match m
    case Density | Speed | Temperature => LatestRow(Parsed(f.plasma))
    case LonGsm | Bt | BzGsm => LatestRow(Parsed(f.mag))
    case Kp => LatestRow(Parsed(f.kpIndex))
  }

  function Precision(m: FloatMetric): nat
  {
    match m
    case Density | Temperature | LonGsm | BzGsm => 3
    case Speed | Bt | Kp => 2
  }

  /** The datagrams of one cycle that carry address, feed by feed. */
  lemma CycleCarrying(c: Cache, f: Fetches, fixed: Formatter, address: string)
    ensures Carrying(CycleSends(c, f, fixed), address) ==
            Carrying(PlasmaSends(LatestRow(Parsed(f.plasma)), c.density, c.speed, c.temperature, fixed), address)
            + Carrying(ProbabilitySends(TodayRecord(Parsed(f.probabilities)), c.mClass, c.xClass), address)
            + Carrying(MagSends(LatestRow(Parsed(f.mag)), c.lonGsm, c.bt, c.bzGsm, fixed), address)
            + Carrying(KpSends(LatestRow(Parsed(f.kpIndex)), c.kp, fixed), address)
  {
    var p := PlasmaSends(LatestRow(Parsed(f.plasma)), c.density, c.speed, c.temperature, fixed);
    var q := ProbabilitySends(TodayRecord(Parsed(f.probabilities)), c.mClass, c.xClass);
    var g := MagSends(LatestRow(Parsed(f.mag)), c.lonGsm, c.bt, c.bzGsm, fixed);
    var k := KpSends(LatestRow(Parsed(f.kpIndex)), c.kp, fixed);
    CarryingConcat(p + q + g, k, address);
    CarryingConcat(p + q, g, address);
    CarryingConcat(p, q, address);
  }

  lemma RelayFloatCarrying(address: string, slot: Slot<real>, precision: nat, fixed: Formatter, wanted: string)
    ensures Carrying(RelayFloat(address, slot, precision, fixed), wanted) ==
            if address == wanted then RelayFloat(address, slot, precision, fixed) else []
  {
    if slot.valid {
      CarryingFanout(address, fixed(slot.value, precision), wanted);
    }
  }

  /** A table feed's three relays, carrying one address. */
  lemma TripleCarrying(row: Option<Value>, a1: string, s1: Slot<real>, p1: nat, a2: string, s2: Slot<real>, p2: nat,
                       a3: string, s3: Slot<real>, p3: nat, fixed: Formatter, wanted: string)
    requires a1 != a2 && a1 != a3 && a2 != a3
    ensures Carrying(if row.None? then [] else RelayFloat(a1, s1, p1, fixed) + RelayFloat(a2, s2, p2, fixed)
                                               + RelayFloat(a3, s3, p3, fixed), wanted)
            == if row.None? then []
               else if a1 == wanted then RelayFloat(a1, s1, p1, fixed)
               else if a2 == wanted then RelayFloat(a2, s2, p2, fixed)
               else if a3 == wanted then RelayFloat(a3, s3, p3, fixed)
               else []
  {
    if row.Some? {
      var r1, r2, r3 := RelayFloat(a1, s1, p1, fixed), RelayFloat(a2, s2, p2, fixed), RelayFloat(a3, s3, p3, fixed);
      CarryingConcat(r1 + r2, r3, wanted);
      CarryingConcat(r1, r2, wanted);
      RelayFloatCarrying(a1, s1, p1, fixed, wanted);
      RelayFloatCarrying(a2, s2, p2, fixed, wanted);
      RelayFloatCarrying(a3, s3, p3, fixed, wanted);
      EmptyAppends(r1);
      EmptyAppends(r2);
      EmptyAppends(r3);
    }
  }

  /** The probabilities feed's datagrams carrying a float metric's address: none. */
  lemma ProbabilityCarryingFloat(record: Option<Value>, mClass: Slot<int>, xClass: Slot<int>, m: FloatMetric)
    ensures Carrying(ProbabilitySends(record, mClass, xClass), FloatAddress(m)) == []
  {
    var wanted := FloatAddress(m);
    assert wanted != "/m_xray" && wanted != "/x_xray" by {
      match m
      case Density =>
      case Speed =>
      case Temperature =>
      case LonGsm =>
      case Bt =>
      case BzGsm =>
      case Kp =>
    }
    if record.Some? {
      var ms := if mClass.valid then Fanout("/m_xray", Decimal.IntToString(mClass.value)) else [];
      var xs := if xClass.valid then XrayPair(Decimal.IntToString(xClass.value), Decimal.IntToString(mClass.OrZero(0)))
                else [];
      CarryingConcat(ms, xs, wanted);
      if mClass.valid {
        CarryingFanout("/m_xray", Decimal.IntToString(mClass.value), wanted);
      }
      if xClass.valid {
        assert xs[1..][1..] == [];
      }
    }
  }

  predicate OfPlasma(m: FloatMetric)
  {
    m.Density? || m.Speed? || m.Temperature?
  }

  predicate OfMag(m: FloatMetric)
  {
    m.LonGsm? || m.Bt? || m.BzGsm?
  }

  /** The plasma feed's datagrams carrying a float metric's address: its relay when it is a plasma metric. */
  lemma PlasmaCarrying(row: Option<Value>, c: Cache, fixed: Formatter, m: FloatMetric)
    ensures Carrying(PlasmaSends(row, c.density, c.speed, c.temperature, fixed), FloatAddress(m)) ==
            if row.Some? && OfPlasma(m) then RelayFloat(FloatAddress(m), c.Float(m), Precision(m), fixed) else []
  {
    TripleCarrying(row, "/dens", c.density, 3, "/speed", c.speed, 2, "/temp", c.temperature, 3, fixed, FloatAddress(m));
    match m
    case Density =>
    case Speed =>
    case Temperature =>
    case LonGsm =>
    case Bt =>
    case BzGsm =>
    case Kp =>
  }

  /** The magnetometer feed's datagrams carrying a float metric's address: its relay when it is a magnetometer metric. */
  lemma MagCarrying(row: Option<Value>, c: Cache, fixed: Formatter, m: FloatMetric)
    ensures Carrying(MagSends(row, c.lonGsm, c.bt, c.bzGsm, fixed), FloatAddress(m)) ==
            if row.Some? && OfMag(m) then RelayFloat(FloatAddress(m), c.Float(m), Precision(m), fixed) else []
  {
    TripleCarrying(row, "/phiGSM", c.lonGsm, 3, "/bt", c.bt, 2, "/bzGSM", c.bzGsm, 3, fixed, FloatAddress(m));
    match m
    case Density =>
    case Speed =>
    case Temperature =>
    case LonGsm =>
    case Bt =>
    case BzGsm =>
    case Kp =>
  }

  /** The Kp feed's datagrams carrying a float metric's address: its relay when it is Kp. */
  lemma KpCarrying(row: Option<Value>, c: Cache, fixed: Formatter, m: FloatMetric)
    ensures Carrying(KpSends(row, c.kp, fixed), FloatAddress(m)) ==
            if row.Some? && m.Kp? then RelayFloat(FloatAddress(m), c.Float(m), Precision(m), fixed) else []
  {
    if row.Some? {
      RelayFloatCarrying("/kp", c.kp, 2, fixed, FloatAddress(m));
    }
    match m
    case Density =>
    case Speed =>
    case Temperature =>
    case LonGsm =>
    case Bt =>
    case BzGsm =>
    case Kp =>
  }

  /**
   * A float metric is sent in a cycle exactly when its feed's row was usable and its
   * slot is valid after extraction (a cached value is re-sent when this cycle's cell
   * was absent): then it is sent twice, to port 6000 and then 6001, formatted to its
   * precision; otherwise not at all.
   */
  lemma FloatSentIffValid(c: Cache, f: Fetches, fixed: Formatter, m: FloatMetric)
    ensures Carrying(CycleSends(c, f, fixed), FloatAddress(m)) ==
            if FloatRow(f, m).Some? then RelayFloat(FloatAddress(m), c.Float(m), Precision(m), fixed) else []
  {
    var a := FloatAddress(m);
    CycleCarrying(c, f, fixed, a);
    PlasmaCarrying(LatestRow(Parsed(f.plasma)), c, fixed, m);
    ProbabilityCarryingFloat(TodayRecord(Parsed(f.probabilities)), c.mClass, c.xClass, m);
    MagCarrying(LatestRow(Parsed(f.mag)), c, fixed, m);
    KpCarrying(LatestRow(Parsed(f.kpIndex)), c, fixed, m);
  }

  /** What the probabilities feed relays for a flare metric while its slot is valid. */
  function IntRelay(mClass: Slot<int>, xClass: Slot<int>, m: IntMetric): seq<Datagram>
  {
    match m
    case MClass => Fanout("/m_xray", Decimal.IntToString(mClass.value))
    case XClass => XrayPair(Decimal.IntToString(xClass.value), Decimal.IntToString(mClass.OrZero(0)))
  }

  lemma XrayPairCarrying(primary: string, secondary: string, wanted: string)
    ensures Carrying(XrayPair(primary, secondary), wanted) == if wanted == "/x_xray" then XrayPair(primary, secondary) else []
  {
    var t := XrayPair(primary, secondary)[1..];
    assert t[1..] == [];
    assert Carrying(t, wanted) == if wanted == "/x_xray" then [t[0]] else [];
  }

  /** The probabilities feed's datagrams carrying a flare metric's address: its relay while its slot is valid. */
  lemma ProbabilityCarryingInt(record: Option<Value>, mClass: Slot<int>, xClass: Slot<int>, m: IntMetric)
    ensures Carrying(ProbabilitySends(record, mClass, xClass), IntAddress(m)) ==
            if record.Some? && (if m.MClass? then mClass else xClass).valid then IntRelay(mClass, xClass, m) else []
  {
    if record.Some? {
      var ms := if mClass.valid then Fanout("/m_xray", Decimal.IntToString(mClass.value)) else [];
      var xs := if xClass.valid then XrayPair(Decimal.IntToString(xClass.value), Decimal.IntToString(mClass.OrZero(0)))
                else [];
      CarryingConcat(ms, xs, IntAddress(m));
      if mClass.valid {
        CarryingFanout("/m_xray", Decimal.IntToString(mClass.value), IntAddress(m));
      }
      if xClass.valid {
        XrayPairCarrying(Decimal.IntToString(xClass.value), Decimal.IntToString(mClass.OrZero(0)), IntAddress(m));
      }
    }
  }

  /** The table feeds' datagrams carry no flare metric's address. */
  lemma TableCarryingInt(c: Cache, f: Fetches, fixed: Formatter, m: IntMetric)
    ensures Carrying(PlasmaSends(LatestRow(Parsed(f.plasma)), c.density, c.speed, c.temperature, fixed), IntAddress(m)) == []
    ensures Carrying(MagSends(LatestRow(Parsed(f.mag)), c.lonGsm, c.bt, c.bzGsm, fixed), IntAddress(m)) == []
    ensures Carrying(KpSends(LatestRow(Parsed(f.kpIndex)), c.kp, fixed), IntAddress(m)) == []
  {
    var a := IntAddress(m);
    TripleCarrying(LatestRow(Parsed(f.plasma)), "/dens", c.density, 3, "/speed", c.speed, 2, "/temp", c.temperature, 3,
                   fixed, a);
    TripleCarrying(LatestRow(Parsed(f.mag)), "/phiGSM", c.lonGsm, 3, "/bt", c.bt, 2, "/bzGSM", c.bzGsm, 3, fixed, a);
    RelayFloatCarrying("/kp", c.kp, 2, fixed, a);
  }

  /**
   * A flare probability is sent in a cycle exactly when record 0 was usable and its
   * slot is valid after extraction: /m_xray twice with the m-class reading, /x_xray to
   * port 6000 with the x-class reading and to port 6001 with the m-class one.
   */
  lemma IntSentIffValid(c: Cache, f: Fetches, fixed: Formatter, m: IntMetric)
    ensures Carrying(CycleSends(c, f, fixed), IntAddress(m)) ==
            if TodayRecord(Parsed(f.probabilities)).Some? && c.Int(m).valid then IntRelay(c.mClass, c.xClass, m) else []
  {
    CycleCarrying(c, f, fixed, IntAddress(m));
    TableCarryingInt(c, f, fixed, m);
    ProbabilityCarryingInt(TodayRecord(Parsed(f.probabilities)), c.mClass, c.xClass, m);
  }

  /** A log none of whose datagrams carries address has no datagram under that address. */
  lemma {:induction false} CarryingNone(log: seq<Datagram>, address: string)
    requires Carrying(log, address) == []
    ensures forall i :: 0 <= i < |log| ==> log[i].address != address
  {
    if log != [] {
      CarryingNone(log[1..], address);
      forall i | 0 < i < |log|
        ensures log[i].address != address
      {
        assert log[i] == log[1..][i - 1];
      }
    }
  }

  /**
   * Before a float metric's first successful parse nothing goes out under its address:
   * over a run in which no cycle obtains a value for it, starting from an invalid slot,
   * the slot stays as it was and no datagram of the run carries the metric's address.
   */
  lemma {:induction false} FloatSilentUntilValid(c: Cache, cycles: seq<Fetches>, num: Numerics, m: FloatMetric)
    requires !c.Float(m).valid
    requires forall k :: 0 <= k < |cycles| ==> FloatOutcome(cycles[k], m, num.stof).None?
    ensures After(c, cycles, num).Float(m) == c.Float(m)
    ensures forall i :: 0 <= i < |RunSends(c, cycles, num)| ==> RunSends(c, cycles, num)[i].address != FloatAddress(m)
  {
    if cycles != [] {
      var k := |cycles| - 1;
      FloatSilentUntilValid(c, cycles[..k], num, m);
      RefreshedSlots(After(c, cycles[..k], num), cycles[k], num);
      var v := After(c, cycles, num);
      FloatSentIffValid(v, cycles[k], num.fixed, m);
      CarryingNone(CycleSends(v, cycles[k], num.fixed), FloatAddress(m));
    }
  }

  /** The same for a flare probability: nothing under /m_xray or /x_xray before its first success. */
  lemma {:induction false} IntSilentUntilValid(c: Cache, cycles: seq<Fetches>, num: Numerics, m: IntMetric)
    requires !c.Int(m).valid
    requires forall k :: 0 <= k < |cycles| ==> IntOutcome(cycles[k], m, num.stoi).None?
    ensures After(c, cycles, num).Int(m) == c.Int(m)
    ensures forall i :: 0 <= i < |RunSends(c, cycles, num)| ==> RunSends(c, cycles, num)[i].address != IntAddress(m)
  {
    if cycles != [] {
      var k := |cycles| - 1;
      IntSilentUntilValid(c, cycles[..k], num, m);
      RefreshedSlots(After(c, cycles[..k], num), cycles[k], num);
      var v := After(c, cycles, num);
      IntSentIffValid(v, cycles[k], num.fixed, m);
      CarryingNone(CycleSends(v, cycles[k], num.fixed), IntAddress(m));
    }
  }

  // ---------------------------------------------------------------------------
  // State

  /** The process-wide state: lastValidData and the datagrams handed to the transport so far. */
  class Catcher {
    var lastValid: Cache
    var sent: seq<Datagram>

    /** At start-up every slot is zero and invalid, and nothing has been sent. */
    constructor ()
      ensures lastValid == Blank && sent == []
      ensures Valid()
    {
      lastValid := Blank;
      sent := [];
    }

    /**
     * Every datagram sent so far went to a local listener, carries the encoding of its
     * address and argument, and belongs to a metric whose slot is valid: no metric is
     * ever relayed before its first successful parse.
     */
    ghost predicate Valid()
      reads this
    {
      Covered(sent, lastValid)
    }

    /** sendOSCMessage: encode and hand one datagram to the transport. */
    method SendOscMessage(address: string, value: string, port: int)
      modifies this`sent
      ensures sent == old(sent) + [Outgoing(port, address, value)]
    {
      var oscMessage := Osc.CreateOscMessage(address, value);
      sent := sent + [Datagram(Localhost, port, address, value, oscMessage)];
    }

    /** The pair of sendOSCMessage calls that relays one reading: port 6000, then port 6001. */
    method Relay(address: string, value: string)
      requires Valid() && Permits(lastValid, address) && Osc.NulFree(value)
      modifies this`sent
      ensures Valid()
      ensures sent == old(sent) + Fanout(address, value)
    {
      SendOscMessage(address, value, PrimaryPort);
      SendOscMessage(address, value, SecondaryPort);
      FanoutCovered(address, value, lastValid);
      CoveredConcat(old(sent), Fanout(address, value), lastValid);
    }

    /** The two sendOSCMessage calls of the /x_xray reading: primary to port 6000, secondary to port 6001. */
    method SendXrayPair(primary: string, secondary: string)
      requires Valid() && lastValid.xClass.valid && Osc.NulFree(primary) && Osc.NulFree(secondary)
      modifies this`sent
      ensures Valid()
      ensures sent == old(sent) + XrayPair(primary, secondary)
    {
      SendOscMessage("/x_xray", primary, PrimaryPort);
      SendOscMessage("/x_xray", secondary, SecondaryPort);
      XrayPairCovered(primary, secondary, lastValid);
      CoveredConcat(old(sent), XrayPair(primary, secondary), lastValid);
    }

    /** The relay of one float metric after extraction: formatted to precision, only while its slot is valid. */
    method RelayReading(address: string, slot: Slot<real>, reading: real, precision: nat, fixed: Formatter)
      requires Valid() && reading == slot.OrZero(0.0)
      requires slot.valid ==> Permits(lastValid, address)
      modifies this`sent
      ensures Valid()
      ensures sent == old(sent) + RelayFloat(address, slot, precision, fixed)
    {
      if slot.valid {
        Relay(address, fixed(reading, precision));
      }
    }

    // -------------------------------------------------------------------------
    // Whole-feed fallbacks: the reading takes the cached values of the feed's metrics.

    method PlasmaFallback(data: Reading) returns (data': Reading)
      ensures data' == data.(density := lastValid.Report().density, speed := lastValid.Report().speed,
                             temperature := lastValid.Report().temperature)
    {
      data' := data.(density := if lastValid.density.valid then lastValid.density.value else 0.0);
      data' := data'.(speed := if lastValid.speed.valid then lastValid.speed.value else 0.0);
      data' := data'.(temperature := if lastValid.temperature.valid then lastValid.temperature.value else 0.0);
    }

    method ProbabilitiesFallback(data: Reading) returns (data': Reading)
      ensures data' == data.(mClass := lastValid.Report().mClass, xClass := lastValid.Report().xClass)
    {
      data' := data.(mClass := if lastValid.mClass.valid then lastValid.mClass.value else 0);
      data' := data'.(xClass := if lastValid.xClass.valid then lastValid.xClass.value else 0);
    }

    method MagFallback(data: Reading) returns (data': Reading)
      ensures data' == data.(lonGsm := lastValid.Report().lonGsm, bt := lastValid.Report().bt,
                             bzGsm := lastValid.Report().bzGsm)
    {
      data' := data.(lonGsm := if lastValid.lonGsm.valid then lastValid.lonGsm.value else 0.0);
      data' := data'.(bt := if lastValid.bt.valid then lastValid.bt.value else 0.0);
      data' := data'.(bzGsm := if lastValid.bzGsm.valid then lastValid.bzGsm.value else 0.0);
    }

    method KpFallback(data: Reading) returns (data': Reading)
      ensures data' == data.(kp := lastValid.Report().kp)
    {
      data' := data.(kp := if lastValid.kp.valid then lastValid.kp.value else 0.0);
    }

    // -------------------------------------------------------------------------
    // The feed processors

    /**
     * processData: density, speed and temperature from columns 1, 2 and 3 of the last
     * row, each relayed to both ports while its slot is valid.
     */
    method ProcessData(parsed: Option<Value>, data: Reading, num: Numerics) returns (data': Reading)
      requires Valid()
      modifies this
      ensures Valid()
      ensures lastValid == old(lastValid).(
                density := old(lastValid).density.Refresh(ColumnValue(LatestRow(parsed), 1, num.stof)),
                speed := old(lastValid).speed.Refresh(ColumnValue(LatestRow(parsed), 2, num.stof)),
                temperature := old(lastValid).temperature.Refresh(ColumnValue(LatestRow(parsed), 3, num.stof)))
      ensures sent == old(sent) + PlasmaSends(LatestRow(parsed), lastValid.density, lastValid.speed,
                                              lastValid.temperature, num.fixed)
      ensures data' == data.(density := lastValid.Report().density, speed := lastValid.Report().speed,
                             temperature := lastValid.Report().temperature)
    {
      if parsed.None? || Size(parsed.value) < 2 || !parsed.value.Arr? {
        // json::parse threw, fewer than two rows, or positional indexing of an object threw
        data' := PlasmaFallback(data);
        return;
      }
      var parsedData := parsed.value;
      var latestData := parsedData.elems[|parsedData.elems| - 1];
      if Index(latestData, 1).None? {
        // the last row cannot be indexed by position: caught, whole-feed fallback
        data' := PlasmaFallback(data);
        return;
      }
      assert LatestRow(parsed) == Some(latestData);
      data' := ExtractPlasma(latestData, data, num);
      RelayPlasma(data', num.fixed);
    }

    /** The three extractions of processData from the last row. */
    method ExtractPlasma(latestData: Value, data: Reading, num: Numerics) returns (data': Reading)
      requires Valid() && Index(latestData, 1).Some?
      modifies this`lastValid
      ensures Valid()
      ensures lastValid == old(lastValid).(
                density := old(lastValid).density.Refresh(ColumnValue(Some(latestData), 1, num.stof)),
                speed := old(lastValid).speed.Refresh(ColumnValue(Some(latestData), 2, num.stof)),
                temperature := old(lastValid).temperature.Refresh(ColumnValue(Some(latestData), 3, num.stof)))
      ensures data' == data.(density := lastValid.Report().density, speed := lastValid.Report().speed,
                             temperature := lastValid.Report().temperature)
    {
      var density, speed, temperature: real;
      var slot: Slot<real>;
      density, slot := ParseValueSafely(Index(latestData, 1).value, lastValid.density, num.stof);
      lastValid := lastValid.(density := slot);
      speed, slot := ParseValueSafely(Index(latestData, 2).value, lastValid.speed, num.stof);
      lastValid := lastValid.(speed := slot);
      temperature, slot := ParseValueSafely(Index(latestData, 3).value, lastValid.temperature, num.stof);
      lastValid := lastValid.(temperature := slot);
      data' := data.(density := density, speed := speed, temperature := temperature);
      CoveredWiden(sent, old(lastValid), lastValid);
    }

    /** The relays of processData, in order: density, speed, temperature. */
    method RelayPlasma(data: Reading, fixed: Formatter)
      requires Valid()
      requires data.density == lastValid.Report().density && data.speed == lastValid.Report().speed
      requires data.temperature == lastValid.Report().temperature
      modifies this`sent
      ensures Valid()
      ensures sent == old(sent) + (RelayFloat("/dens", lastValid.density, 3, fixed)
                                   + RelayFloat("/speed", lastValid.speed, 2, fixed)
                                   + RelayFloat("/temp", lastValid.temperature, 3, fixed))
    {
      ghost var log := sent;
      ghost var a, b, c := RelayFloat("/dens", lastValid.density, 3, fixed), RelayFloat("/speed", lastValid.speed, 2, fixed),
                           RelayFloat("/temp", lastValid.temperature, 3, fixed);
      RelayReading("/dens", lastValid.density, data.density, 3, fixed);
      RelayReading("/speed", lastValid.speed, data.speed, 2, fixed);
      AppendAssoc(log, a, b);
      RelayReading("/temp", lastValid.temperature, data.temperature, 3, fixed);
      AppendAssoc(log, a + b, c);
    }

    /**
     * processSolarProbabilities: the m-class and x-class one-day probabilities from
     * record 0, relayed while valid; the second /x_xray copy carries the m-class value.
     */
    method ProcessSolarProbabilities(parsed: Option<Value>, data: Reading, num: Numerics) returns (data': Reading)
      requires Valid()
      modifies this
      ensures Valid()
      ensures lastValid == old(lastValid).(
                mClass := old(lastValid).mClass.Refresh(KeyValue(TodayRecord(parsed), "m_class_1_day", num.stoi)),
                xClass := old(lastValid).xClass.Refresh(KeyValue(TodayRecord(parsed), "x_class_1_day", num.stoi)))
      ensures sent == old(sent) + ProbabilitySends(TodayRecord(parsed), lastValid.mClass, lastValid.xClass)
      ensures data' == data.(mClass := lastValid.Report().mClass, xClass := lastValid.Report().xClass)
    {
      if parsed.None? {
        data' := ProbabilitiesFallback(data);
        return;
      }
      var parsedData := parsed.value;
      if parsedData.Arr? && |parsedData.elems| > 0 {
        var todayData := parsedData.elems[0];
        if Member(todayData, "m_class_1_day").None? {
          // member lookup on a record that is neither an object nor null threw
          data' := ProbabilitiesFallback(data);
          return;
        }
        assert TodayRecord(parsed) == Some(todayData);
        data' := ExtractProbabilities(todayData, data, num);
        RelayProbabilities(data');
      } else {
        data' := ProbabilitiesFallback(data);
      }
    }

    /** The two extractions of processSolarProbabilities from record 0. */
    method ExtractProbabilities(todayData: Value, data: Reading, num: Numerics) returns (data': Reading)
      requires Valid() && Member(todayData, "m_class_1_day").Some?
      modifies this`lastValid
      ensures Valid()
      ensures lastValid == old(lastValid).(
                mClass := old(lastValid).mClass.Refresh(KeyValue(Some(todayData), "m_class_1_day", num.stoi)),
                xClass := old(lastValid).xClass.Refresh(KeyValue(Some(todayData), "x_class_1_day", num.stoi)))
      ensures data' == data.(mClass := lastValid.Report().mClass, xClass := lastValid.Report().xClass)
    {
      var mClass, xClass: int;
      var slot: Slot<int>;
      mClass, slot := ParseIntValueSafely(Member(todayData, "m_class_1_day").value, lastValid.mClass, num.stoi);
      lastValid := lastValid.(mClass := slot);
      xClass, slot := ParseIntValueSafely(Member(todayData, "x_class_1_day").value, lastValid.xClass, num.stoi);
      lastValid := lastValid.(xClass := slot);
      data' := data.(mClass := mClass, xClass := xClass);
      CoveredWiden(sent, old(lastValid), lastValid);
    }

    /**
     * The relays of processSolarProbabilities: /m_xray to both ports, then /x_xray to
     * port 6000 with the x-class reading and to port 6001 with the m-class reading.
     */
    method RelayProbabilities(data: Reading)
      requires Valid()
      requires data.mClass == lastValid.Report().mClass && data.xClass == lastValid.Report().xClass
      modifies this`sent
      ensures Valid()
      ensures sent == old(sent) + ProbabilityRelays(lastValid.mClass, lastValid.xClass)
    {
      ghost var log := sent;
      var mClass, xClass := lastValid.mClass, lastValid.xClass;
      if mClass.valid {
        IntToStringNulFree(data.mClass);
        Relay("/m_xray", Decimal.IntToString(data.mClass));
      }
      ghost var ms := if mClass.valid then Fanout("/m_xray", Decimal.IntToString(mClass.value)) else [];
      ghost var xs := if xClass.valid then XrayPair(Decimal.IntToString(xClass.value), Decimal.IntToString(mClass.OrZero(0)))
                      else [];
      assert sent == log + ms;
      if xClass.valid {
        // the copy for port 6001 is built from the m-class reading
        IntToStringNulFree(data.xClass);
        IntToStringNulFree(data.mClass);
        SendXrayPair(Decimal.IntToString(data.xClass), Decimal.IntToString(data.mClass));
      }
      assert sent == log + ms + xs;
      AppendAssoc(log, ms, xs);
    }

    /**
     * processMagData: phi GSM, Bt and Bz GSM from columns 4, 6 and 3 of the last row,
     * each relayed to both ports while its slot is valid.
     */
    method ProcessMagData(parsed: Option<Value>, data: Reading, num: Numerics) returns (data': Reading)
      requires Valid()
      modifies this
      ensures Valid()
      ensures lastValid == old(lastValid).(
                lonGsm := old(lastValid).lonGsm.Refresh(ColumnValue(LatestRow(parsed), 4, num.stof)),
                bt := old(lastValid).bt.Refresh(ColumnValue(LatestRow(parsed), 6, num.stof)),
                bzGsm := old(lastValid).bzGsm.Refresh(ColumnValue(LatestRow(parsed), 3, num.stof)))
      ensures sent == old(sent) + MagSends(LatestRow(parsed), lastValid.lonGsm, lastValid.bt, lastValid.bzGsm, num.fixed)
      ensures data' == data.(lonGsm := lastValid.Report().lonGsm, bt := lastValid.Report().bt,
                             bzGsm := lastValid.Report().bzGsm)
    {
      if parsed.None? || Size(parsed.value) < 2 || !parsed.value.Arr? {
        data' := MagFallback(data);
        return;
      }
      var parsedData := parsed.value;
      var latestData := parsedData.elems[|parsedData.elems| - 1];
      if Index(latestData, 4).None? {
        data' := MagFallback(data);
        return;
      }
      assert LatestRow(parsed) == Some(latestData);
      data' := ExtractMag(latestData, data, num);
      RelayMag(data', num.fixed);
    }

    /** The three extractions of processMagData from the last row. */
    method ExtractMag(latestData: Value, data: Reading, num: Numerics) returns (data': Reading)
      requires Valid() && Index(latestData, 4).Some?
      modifies this`lastValid
      ensures Valid()
      ensures lastValid == old(lastValid).(
                lonGsm := old(lastValid).lonGsm.Refresh(ColumnValue(Some(latestData), 4, num.stof)),
                bt := old(lastValid).bt.Refresh(ColumnValue(Some(latestData), 6, num.stof)),
                bzGsm := old(lastValid).bzGsm.Refresh(ColumnValue(Some(latestData), 3, num.stof)))
      ensures data' == data.(lonGsm := lastValid.Report().lonGsm, bt := lastValid.Report().bt,
                             bzGsm := lastValid.Report().bzGsm)
    {
      var lonGsm, bt, bzGsm: real;
      var slot: Slot<real>;
      lonGsm, slot := ParseValueSafely(Index(latestData, 4).value, lastValid.lonGsm, num.stof);
      lastValid := lastValid.(lonGsm := slot);
      bt, slot := ParseValueSafely(Index(latestData, 6).value, lastValid.bt, num.stof);
      lastValid := lastValid.(bt := slot);
      bzGsm, slot := ParseValueSafely(Index(latestData, 3).value, lastValid.bzGsm, num.stof);
      lastValid := lastValid.(bzGsm := slot);
      data' := data.(lonGsm := lonGsm, bt := bt, bzGsm := bzGsm);
      CoveredWiden(sent, old(lastValid), lastValid);
    }

    /** The relays of processMagData, in order: phi GSM, Bt, Bz GSM. */
    method RelayMag(data: Reading, fixed: Formatter)
      requires Valid()
      requires data.lonGsm == lastValid.Report().lonGsm && data.bt == lastValid.Report().bt
      requires data.bzGsm == lastValid.Report().bzGsm
      modifies this`sent
      ensures Valid()
      ensures sent == old(sent) + (RelayFloat("/phiGSM", lastValid.lonGsm, 3, fixed)
                                   + RelayFloat("/bt", lastValid.bt, 2, fixed)
                                   + RelayFloat("/bzGSM", lastValid.bzGsm, 3, fixed))
    {
      ghost var log := sent;
      ghost var a, b, c := RelayFloat("/phiGSM", lastValid.lonGsm, 3, fixed), RelayFloat("/bt", lastValid.bt, 2, fixed),
                           RelayFloat("/bzGSM", lastValid.bzGsm, 3, fixed);
      RelayReading("/phiGSM", lastValid.lonGsm, data.lonGsm, 3, fixed);
      RelayReading("/bt", lastValid.bt, data.bt, 2, fixed);
      AppendAssoc(log, a, b);
      RelayReading("/bzGSM", lastValid.bzGsm, data.bzGsm, 3, fixed);
      AppendAssoc(log, a + b, c);
    }

    /** processKpIndexData: Kp from column 1 of the last row, relayed to both ports while valid. */
    method ProcessKpIndexData(parsed: Option<Value>, data: Reading, num: Numerics) returns (data': Reading)
      requires Valid()
      modifies this
      ensures Valid()
      ensures lastValid == old(lastValid).(kp := old(lastValid).kp.Refresh(ColumnValue(LatestRow(parsed), 1, num.stof)))
      ensures sent == old(sent) + KpSends(LatestRow(parsed), lastValid.kp, num.fixed)
      ensures data' == data.(kp := lastValid.Report().kp)
    {
      if parsed.None? || Size(parsed.value) < 2 || !parsed.value.Arr? {
        data' := KpFallback(data);
        return;
      }
      var parsedData := parsed.value;
      var latestData := parsedData.elems[|parsedData.elems| - 1];
      if Index(latestData, 1).None? {
        data' := KpFallback(data);
        return;
      }
      assert LatestRow(parsed) == Some(latestData);
      var kp: real;
      var slot: Slot<real>;
      kp, slot := ParseValueSafely(Index(latestData, 1).value, lastValid.kp, num.stof);
      lastValid := lastValid.(kp := slot);
      data' := data.(kp := kp);
      CoveredWiden(sent, old(lastValid), lastValid);
      RelayReading("/kp", lastValid.kp, data'.kp, 2, num.fixed);
    }

    // -------------------------------------------------------------------------
    // The polling loop

    /** main's plasma step: processData on a non-empty body, the plasma fallback on an empty one. */
    method PlasmaStep(body: Body, data: Reading, num: Numerics) returns (data': Reading)
      requires Valid()
      modifies this
      ensures Valid()
      ensures lastValid == old(lastValid).(
                density := old(lastValid).density.Refresh(ColumnValue(LatestRow(Parsed(body)), 1, num.stof)),
                speed := old(lastValid).speed.Refresh(ColumnValue(LatestRow(Parsed(body)), 2, num.stof)),
                temperature := old(lastValid).temperature.Refresh(ColumnValue(LatestRow(Parsed(body)), 3, num.stof)))
      ensures sent == old(sent) + PlasmaSends(LatestRow(Parsed(body)), lastValid.density, lastValid.speed,
                                              lastValid.temperature, num.fixed)
      ensures data' == data.(density := lastValid.Report().density, speed := lastValid.Report().speed,
                             temperature := lastValid.Report().temperature)
    {
      if body.Empty? {
        data' := PlasmaFallback(data);
      } else {
        data' := ProcessData(Parsed(body), data, num);
      }
    }

    /** main's probabilities step. */
    method ProbabilitiesStep(body: Body, data: Reading, num: Numerics) returns (data': Reading)
      requires Valid()
      modifies this
      ensures Valid()
      ensures lastValid == old(lastValid).(
                mClass := old(lastValid).mClass.Refresh(KeyValue(TodayRecord(Parsed(body)), "m_class_1_day", num.stoi)),
                xClass := old(lastValid).xClass.Refresh(KeyValue(TodayRecord(Parsed(body)), "x_class_1_day", num.stoi)))
      ensures sent == old(sent) + ProbabilitySends(TodayRecord(Parsed(body)), lastValid.mClass, lastValid.xClass)
      ensures data' == data.(mClass := lastValid.Report().mClass, xClass := lastValid.Report().xClass)
    {
      if body.Empty? {
        data' := ProbabilitiesFallback(data);
      } else {
        data' := ProcessSolarProbabilities(Parsed(body), data, num);
      }
    }

    /** main's magnetometer step. */
    method MagStep(body: Body, data: Reading, num: Numerics) returns (data': Reading)
      requires Valid()
      modifies this
      ensures Valid()
      ensures lastValid == old(lastValid).(
                lonGsm := old(lastValid).lonGsm.Refresh(ColumnValue(LatestRow(Parsed(body)), 4, num.stof)),
                bt := old(lastValid).bt.Refresh(ColumnValue(LatestRow(Parsed(body)), 6, num.stof)),
                bzGsm := old(lastValid).bzGsm.Refresh(ColumnValue(LatestRow(Parsed(body)), 3, num.stof)))
      ensures sent == old(sent) + MagSends(LatestRow(Parsed(body)), lastValid.lonGsm, lastValid.bt, lastValid.bzGsm,
                                           num.fixed)
      ensures data' == data.(lonGsm := lastValid.Report().lonGsm, bt := lastValid.Report().bt,
                             bzGsm := lastValid.Report().bzGsm)
    {
      if body.Empty? {
        data' := MagFallback(data);
      } else {
        data' := ProcessMagData(Parsed(body), data, num);
      }
    }

    /** main's Kp step. */
    method KpStep(body: Body, data: Reading, num: Numerics) returns (data': Reading)
      requires Valid()
      modifies this
      ensures Valid()
      ensures lastValid == old(lastValid).(kp := old(lastValid).kp.Refresh(ColumnValue(LatestRow(Parsed(body)), 1, num.stof)))
      ensures sent == old(sent) + KpSends(LatestRow(Parsed(body)), lastValid.kp, num.fixed)
      ensures data' == data.(kp := lastValid.Report().kp)
    {
      if body.Empty? {
        data' := KpFallback(data);
      } else {
        data' := ProcessKpIndexData(Parsed(body), data, num);
      }
    }

    /**
     * One pass of main's loop body: plasma, probabilities, magnetometer, Kp, in that
     * order; an empty body skips the processor and falls back for its feed. Every slot
     * is refreshed by what its feed yielded, the datagrams of the four feeds are
     * appended in order, and the reading shows exactly what the cache holds.
     */
    method RunCycle(fetches: Fetches, num: Numerics) returns (currentData: Reading)
      requires Valid()
      modifies this
      ensures Valid()
      ensures lastValid == Refreshed(old(lastValid), fetches, num)
      ensures sent == old(sent) + CycleSends(lastValid, fetches, num.fixed)
      ensures currentData == lastValid.Report()
    {
      currentData := Zero;
      ghost var log := sent;
      currentData := PlasmaStep(fetches.plasma, currentData, num);
      ghost var p := PlasmaSends(LatestRow(Parsed(fetches.plasma)), lastValid.density, lastValid.speed,
                                 lastValid.temperature, num.fixed);
      currentData := ProbabilitiesStep(fetches.probabilities, currentData, num);
      ghost var q := ProbabilitySends(TodayRecord(Parsed(fetches.probabilities)), lastValid.mClass, lastValid.xClass);
      AppendAssoc(log, p, q);
      currentData := MagStep(fetches.mag, currentData, num);
      ghost var g := MagSends(LatestRow(Parsed(fetches.mag)), lastValid.lonGsm, lastValid.bt, lastValid.bzGsm, num.fixed);
      AppendAssoc(log, p + q, g);
      currentData := KpStep(fetches.kpIndex, currentData, num);
      ghost var k := KpSends(LatestRow(Parsed(fetches.kpIndex)), lastValid.kp, num.fixed);
      AppendAssoc(log, p + q + g, k);
    }

    /**
     * main's loop over a finite run of cycles (cancellation and the wait between cycles
     * are not modelled): the cache ends as the cycles leave it, and the send log grows
     * by the datagrams of every cycle in turn.
     */
    method Run(cycles: seq<Fetches>, num: Numerics)
      requires Valid()
      modifies this
      ensures Valid()
      ensures lastValid == After(old(lastValid), cycles, num)
      ensures sent == old(sent) + RunSends(old(lastValid), cycles, num)
      ensures forall i :: 0 <= i < |sent| ==>
        Osc.Decode(sent[i].packet) == Some(Osc.Message(sent[i].address, sent[i].argument))
    {
      var k := 0;
      while k < |cycles|
        invariant 0 <= k <= |cycles|
        invariant Valid()
        invariant lastValid == After(old(lastValid), cycles[..k], num)
        invariant sent == old(sent) + RunSends(old(lastValid), cycles[..k], num)
      {
        var reading := RunCycle(cycles[k], num);
        RunSnoc(old(lastValid), cycles, k, num);
        AppendAssoc(old(sent), RunSends(old(lastValid), cycles[..k], num), CycleSends(lastValid, cycles[k], num.fixed));
        k := k + 1;
      }
      assert cycles[..|cycles|] == cycles;
      LogDecodes(sent, lastValid);
    }
  }
}
