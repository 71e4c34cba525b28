/**
 The append-only ledger: hash-chained entries, verification, and what an equal tip proves.
 Strings are byte strings; the SHA-256 digest and the payload serialization are abstract.
 */
module Ledger {
  import opened Common
  import opened Bytes
  import opened Fnv

  type Digest = s: seq<Byte> | |s| == 32 witness seq(32, i => 0)

  /** The digest function and the JSON serialization of payloads. */
  datatype Env<!P> = Env(sha: seq<Byte> -> Digest, ser: P -> seq<Byte>)

  datatype Entry<P> = Entry(seqNo: nat, timestamp: U64, payload: P, prevHash: seq<Byte>, hash: seq<Byte>)

  datatype Chain<P> = Chain(entries: seq<Entry<P>>, version: nat)

  const FNV_VERSION: nat := 1
  const SHA_VERSION: nat := 2
  const LANE_OFFSET: U64 := 0x84222325_cbf29ce4

  function Zeros(n: nat): seq<Byte> {
    seq(n, i => 48)
  }

  function Genesis(version: nat): seq<Byte> {
    if version == FNV_VERSION then Zeros(32) else Zeros(64)
  }

  /** Before the first entry the link is all zero digits, 32 in a legacy ledger and 64 otherwise. */
  lemma GenesisIs(version: nat, i: nat)
    ensures |Genesis(version)| == (if version == 1 then 32 else 64)
    ensures i < |Genesis(version)| ==> HexRead([Genesis(version)[i]]) == 0 && Genesis(version)[i] == HexDigit(0)
  {
    var zero: Byte := 48;
    assert [zero][..0] == [];
  }

  /** What an entry's hash covers. */
  function Preimage(prev: seq<Byte>, seqNo: nat, timestamp: nat, payload: seq<Byte>): seq<Byte> {
    prev + LittleEndian(seqNo, 8) + LittleEndian(timestamp, 8) + payload
  }

  /** Where the four fields lie: the previous hash, then sequence number and timestamp by byte, then the payload. */
  lemma PreimageLayout(prev: seq<Byte>, seqNo: nat, timestamp: nat, payload: seq<Byte>, i: nat)
    requires i < 8
    ensures var p, n := Preimage(prev, seqNo, timestamp, payload), |prev|;
            && |p| == n + 16 + |payload| && p[..n] == prev && p[n + 16..] == payload
            && Pow(256, i) > 0
            && p[n + i] == seqNo / Pow(256, i) % 256 && p[n + 8 + i] == timestamp / Pow(256, i) % 256
  {
    LittleEndianByte(seqNo, 8, i);
    LittleEndianByte(timestamp, 8, i);
    hide Pow, LittleEndian;
  }

  function FnvHash(preimage: seq<Byte>): seq<Byte> {
    HexNumber(Feed(OFFSET, preimage), 16) + HexNumber(Feed(LANE_OFFSET, preimage), 16)
  }

  function ChainHash<P>(env: Env<P>, version: nat, prev: seq<Byte>, seqNo: nat, timestamp: nat, payload: P): seq<Byte> {
    var preimage := Preimage(prev, seqNo, timestamp, env.ser(payload));
    if version == FNV_VERSION then FnvHash(preimage) else HexBytes(env.sha(preimage))
  }

  method MixBytes(h: U64, bytes: seq<Byte>) returns (r: U64)
    ensures r == Feed(h, bytes)
  {
    r := h;
    for i := 0 to |bytes|
      invariant r == Feed(h, bytes[..i])
    {
      assert bytes[..i + 1][..i] == bytes[..i];
      r := Mix(r, bytes[i]);
    }
    assert bytes[..|bytes|] == bytes;
  }

  /** One lane of the legacy hash, fed field by field. */
  method FeedLane(h: U64, prev: seq<Byte>, seqNo: nat, timestamp: nat, payload: seq<Byte>) returns (r: U64)
    ensures r == Feed(h, Preimage(prev, seqNo, timestamp, payload))
  {
    r := MixBytes(h, prev);
    r := MixBytes(r, LittleEndian(seqNo, 8));
    r := MixBytes(r, LittleEndian(timestamp, 8));
    r := MixBytes(r, payload);
    var ab := prev + LittleEndian(seqNo, 8);
    FeedAppend(h, prev, LittleEndian(seqNo, 8));
    FeedAppend(h, ab, LittleEndian(timestamp, 8));
    FeedAppend(h, ab + LittleEndian(timestamp, 8), payload);
  }

  method ChainHashFnv(prev: seq<Byte>, seqNo: nat, timestamp: nat, payload: seq<Byte>) returns (hash: seq<Byte>)
    ensures hash == FnvHash(Preimage(prev, seqNo, timestamp, payload))
  {
    var h1 := FeedLane(OFFSET, prev, seqNo, timestamp, payload);
    var h2 := FeedLane(LANE_OFFSET, prev, seqNo, timestamp, payload);
    hash := HexNumber(h1, 16) + HexNumber(h2, 16);
  }

  function Tip<P>(l: Chain<P>): seq<Byte> {
    if l.entries == [] then Genesis(l.version) else l.entries[|l.entries| - 1].hash
  }

  // ---------------------------------------------------------------------------
  // Verification
  // ---------------------------------------------------------------------------

  function LinkBefore<P>(l: Chain<P>, i: nat): seq<Byte>
    requires i <= |l.entries|
  {
    if i == 0 then Genesis(l.version) else l.entries[i - 1].hash
  }

  function Rehash<P>(env: Env<P>, l: Chain<P>, i: nat): seq<Byte>
    requires i < |l.entries|
  {
    var e := l.entries[i];
    ChainHash(env, l.version, e.prevHash, e.seqNo, e.timestamp, e.payload)
  }

  /** Sequence number, link and hash of the entry at `i` are right. */
  predicate EntryOk<P>(env: Env<P>, l: Chain<P>, i: nat)
    requires i < |l.entries|
  {
    l.entries[i].seqNo == i && l.entries[i].prevHash == LinkBefore(l, i) && l.entries[i].hash == Rehash(env, l, i)
  }

  ghost predicate Verifies<P>(env: Env<P>, l: Chain<P>) {
    forall i: nat | i < |l.entries| :: EntryOk(env, l, i)
  }

  /** `i` is the first entry that fails. */
  ghost predicate FirstBroken<P>(env: Env<P>, l: Chain<P>, i: nat) {
    i < |l.entries| && !EntryOk(env, l, i) && forall j: nat | j < i :: EntryOk(env, l, j)
  }

  datatype VerifyResult = VerifyResult(valid: bool, entries: nat, brokenAt: Option<nat>)

  method Verify<P>(env: Env<P>, l: Chain<P>) returns (r: VerifyResult)
    ensures r.entries == |l.entries| && r.valid == r.brokenAt.None?
    ensures r.valid <==> Verifies(env, l)
    ensures r.brokenAt.Some? ==> FirstBroken(env, l, r.brokenAt.value)
  {
    var prev := Genesis(l.version);
    for i := 0 to |l.entries|
      invariant prev == LinkBefore(l, i)
      invariant forall j: nat | j < i :: EntryOk(env, l, j)
    {
      var e := l.entries[i];
      var expected := ChainHash(env, l.version, e.prevHash, e.seqNo, e.timestamp, e.payload);
      if !(e.seqNo == i && e.prevHash == prev && e.hash == expected) {
        assert !EntryOk(env, l, i);
        return VerifyResult(false, |l.entries|, Some(i));
      }
      assert EntryOk(env, l, i);
      prev := e.hash;
    }
    r := VerifyResult(true, |l.entries|, None);
  }

  // ---------------------------------------------------------------------------
  // The engine
  // ---------------------------------------------------------------------------

  function Appended<P>(env: Env<P>, l: Chain<P>, payload: P, timestamp: U64): Chain<P> {
    var hash := ChainHash(env, l.version, Tip(l), |l.entries|, timestamp, payload);
    l.(entries := l.entries + [Entry(|l.entries|, timestamp, payload, Tip(l), hash)])
  }

  /** An append leaves every earlier entry as it was and adds one that is right. */
  lemma AppendKeepsEntries<P>(env: Env<P>, l: Chain<P>, payload: P, timestamp: U64)
    ensures var after := Appended(env, l, payload, timestamp);
            && |after.entries| == |l.entries| + 1 && EntryOk(env, after, |l.entries|)
            && forall i: nat | i < |l.entries| :: EntryOk(env, after, i) <==> EntryOk(env, l, i)
  {
    var after := Appended(env, l, payload, timestamp);
    forall i: nat | i < |l.entries| ensures EntryOk(env, after, i) <==> EntryOk(env, l, i) {
      assert after.entries[i] == l.entries[i] && LinkBefore(after, i) == LinkBefore(l, i);
    }
  }

  /** The engine's contents: the ledgers, and a logical clock of 64 bits. */
  datatype Store<P> = Store(ledgers: map<string, Chain<P>>, clock: U64)

  datatype Op<P> =
    | Append(name: string, payload: P, timestamp: Option<U64>)
    | Create(name: string)
    | Drop(name: string)
    | Load(saved: Store<P>)

  /** The chain an append without a ledger starts. */
  function Fresh<P>(): Chain<P> {
    Chain([], SHA_VERSION)
  }

  function Tick(clock: U64): U64 {
    if clock == 0xffff_ffff_ffff_ffff then 0 else clock + 1
  }

  /** What an operation does to the contents. */
  function After<P>(env: Env<P>, s: Store<P>, op: Op<P>): Store<P> {
    match op
    case Append(name, payload, timestamp) =>
      var l := if name in s.ledgers then s.ledgers[name] else Fresh();
      var ts := if timestamp.Some? then timestamp.value else s.clock;
      Store(s.ledgers[name := Appended(env, l, payload, ts)], if timestamp.Some? then s.clock else Tick(s.clock))
    case Create(name) => if name in s.ledgers then s else s.(ledgers := s.ledgers[name := Fresh()])
    case Drop(name) => s.(ledgers := s.ledgers - {name})
    case Load(saved) => Store(saved.ledgers, if saved.clock == 0 then 1 else saved.clock)
  }

  class LedgerEngine<P> {
    const env: Env<P>
    var ledgers: map<string, Chain<P>>
    var clock: U64

    function Contents(): Store<P>
      reads this
    {
      Store(ledgers, clock)
    }

    constructor (e: Env<P>)
      ensures env == e && Contents() == Store(map[], 1)
    {
      env := e;
      ledgers := map[];
      clock := 1;
    }

    /** Appends to a ledger, created on demand; an entry without a timestamp takes the logical clock. */
    method AppendEntry(name: string, payload: P, timestamp: Option<U64>) returns (entry: Entry<P>)
      modifies this
      ensures Contents() == After(env, old(Contents()), Append(name, payload, timestamp))
      ensures ledgers[name].entries != [] && entry == ledgers[name].entries[|ledgers[name].entries| - 1]
    {
      var ts: U64;
      if timestamp.Some? {
        ts := timestamp.value;
      } else {
        ts := clock;
        clock := if clock < 0xffff_ffff_ffff_ffff then clock + 1 else 0;
      }
      var l := if name in ledgers then ledgers[name] else Chain([], SHA_VERSION);
      var prev := Tip(l);
      var hash := ChainHash(env, l.version, prev, |l.entries|, ts, payload);
      entry := Entry(|l.entries|, ts, payload, prev, hash);
      ledgers := ledgers[name := l.(entries := l.entries + [entry])];
    }

    method CreateLedger(name: string) returns (created: bool)
      modifies this
      ensures created == (name !in old(ledgers)) && Contents() == After(env, old(Contents()), Create(name))
    {
      created := name !in ledgers;
      if created {
        ledgers := ledgers[name := Chain([], SHA_VERSION)];
      }
    }

    method DropLedger(name: string) returns (dropped: bool)
      modifies this
      ensures dropped == (name in old(ledgers)) && Contents() == After(env, old(Contents()), Drop(name))
    {
      dropped := name in ledgers;
      ledgers := ledgers - {name};
    }

    method LoadSnapshot(saved: Store<P>)
      modifies this
      ensures Contents() == After(env, old(Contents()), Load(saved))
    {
      ledgers := saved.ledgers;
      clock := if saved.clock == 0 then 1 else saved.clock;
    }
  }

  /** The chain each ledger started from: empty, or as it was loaded. */
  function Origins<P>(origins: map<string, Chain<P>>, op: Op<P>): map<string, Chain<P>> {
    match op
    case Append(name, _, _) => if name in origins then origins else origins[name := Fresh()]
    case Create(name) => if name in origins then origins else origins[name := Fresh()]
    case Drop(name) => origins - {name}
    case Load(saved) => saved.ledgers
  }

  /** The ledger extends its origin by entries that are right, and judges the entries of the origin as before. */
  ghost predicate GrownFrom<P>(env: Env<P>, l: Chain<P>, origin: Chain<P>) {
    && l.version == origin.version && origin.entries <= l.entries
    && (forall i: nat | i < |origin.entries| :: EntryOk(env, l, i) <==> EntryOk(env, origin, i))
    && (forall i: nat | |origin.entries| <= i < |l.entries| :: EntryOk(env, l, i))
  }

  lemma AppendGrows<P>(env: Env<P>, l: Chain<P>, origin: Chain<P>, payload: P, timestamp: U64)
    requires GrownFrom(env, l, origin)
    ensures GrownFrom(env, Appended(env, l, payload, timestamp), origin)
  {
    AppendKeepsEntries(env, l, payload, timestamp);
    hide EntryOk;
  }

  lemma GrownFromItself<P>(env: Env<P>, l: Chain<P>)
    ensures GrownFrom(env, l, l)
  {
  }

  ghost predicate AllGrown<P>(env: Env<P>, s: Store<P>, origins: map<string, Chain<P>>) {
    s.ledgers.Keys == origins.Keys && forall name | name in origins :: GrownFrom(env, s.ledgers[name], origins[name])
  }

  lemma AfterGrown<P>(env: Env<P>, s: Store<P>, origins: map<string, Chain<P>>, op: Op<P>)
    requires AllGrown(env, s, origins)
    ensures AllGrown(env, After(env, s, op), Origins(origins, op))
  {
    hide GrownFrom, Appended;
    GrownFromItself(env, Fresh());
    match op
    case Append(name, payload, timestamp) =>
      var l := if name in s.ledgers then s.ledgers[name] else Fresh();
      var origin := if name in origins then origins[name] else Fresh();
      AppendGrows(env, l, origin, payload, if timestamp.Some? then timestamp.value else s.clock);
    case Create(name) =>
    case Drop(name) =>
    case Load(saved) =>
      forall name | name in saved.ledgers ensures GrownFrom(env, saved.ledgers[name], saved.ledgers[name]) {
        GrownFromItself(env, saved.ledgers[name]);
      }
  }

  /** The contents after the first `n` operations on a new engine. */
  function Reached<P>(env: Env<P>, ops: seq<Op<P>>, n: nat): Store<P>
    requires n <= |ops|
  {
    if n == 0 then Store(map[], 1) else After(env, Reached(env, ops, n - 1), ops[n - 1])
  }

  function OriginsOf<P>(ops: seq<Op<P>>, n: nat): map<string, Chain<P>>
    requires n <= |ops|
  {
    if n == 0 then map[] else Origins(OriginsOf(ops, n - 1), ops[n - 1])
  }

  lemma {:induction false} RunGrown<P>(env: Env<P>, ops: seq<Op<P>>, n: nat)
    requires n <= |ops|
    ensures AllGrown(env, Reached(env, ops, n), OriginsOf(ops, n))
  {
    hide After, Origins, GrownFrom;
    if n > 0 {
      RunGrown(env, ops, n - 1);
      AfterGrown(env, Reached(env, ops, n - 1), OriginsOf(ops, n - 1), ops[n - 1]);
    }
  }

  /**
   After any run of appends, creations, drops and loads, a ledger verifies if and only if the chain it
   started from did, and a break can only be reported within that chain.
   */
  lemma RunVerifies<P>(env: Env<P>, ops: seq<Op<P>>, n: nat, name: string)
    requires n <= |ops| && name in Reached(env, ops, n).ledgers
    ensures name in OriginsOf(ops, n)
    ensures var l, origin := Reached(env, ops, n).ledgers[name], OriginsOf(ops, n)[name];
            && (Verifies(env, l) <==> Verifies(env, origin))
            && forall i: nat :: FirstBroken(env, l, i) <==> FirstBroken(env, origin, i)
  {
    RunGrown(env, ops, n);
    hide Reached, OriginsOf;
    GrownVerifies(env, Reached(env, ops, n).ledgers[name], OriginsOf(ops, n)[name]);
  }

  lemma GrownVerifies<P>(env: Env<P>, l: Chain<P>, origin: Chain<P>)
    requires GrownFrom(env, l, origin)
    ensures Verifies(env, l) <==> Verifies(env, origin)
    ensures forall i: nat :: FirstBroken(env, l, i) <==> FirstBroken(env, origin, i)
  {
    hide EntryOk;
  }

  ghost predicate LoadsVerify<P>(env: Env<P>, ops: seq<Op<P>>) {
    forall k, name | 0 <= k < |ops| && ops[k].Load? && name in ops[k].saved.ledgers ::
        Verifies(env, ops[k].saved.ledgers[name])
  }

  lemma {:induction false} OriginsVerify<P>(env: Env<P>, ops: seq<Op<P>>, n: nat)
    requires n <= |ops| && LoadsVerify(env, ops)
    ensures forall name | name in OriginsOf(ops, n) :: Verifies(env, OriginsOf(ops, n)[name])
  {
    if n > 0 {
      OriginsVerify(env, ops, n - 1);
      assert Verifies(env, Fresh());
      hide Verifies;
    }
  }

  /** When every chain that is loaded verifies, every ledger verifies at every point of the run. */
  lemma AllVerify<P>(env: Env<P>, ops: seq<Op<P>>, n: nat, name: string)
    requires n <= |ops| && LoadsVerify(env, ops) && name in Reached(env, ops, n).ledgers
    ensures Verifies(env, Reached(env, ops, n).ledgers[name])
  {
    hide Verifies, Reached, OriginsOf, LoadsVerify, FirstBroken;
    RunVerifies(env, ops, n, name);
    OriginsVerify(env, ops, n);
  }

  // ---------------------------------------------------------------------------
  // Tamper evidence
  // ---------------------------------------------------------------------------

  lemma LayoutInjective(prev: seq<Byte>, n: nat, t: U64, body: seq<Byte>, prev': seq<Byte>, n': nat, t': U64,
      body': seq<Byte>)
    requires |prev| == |prev'| && n < 0x1_0000_0000_0000_0000 && n' < 0x1_0000_0000_0000_0000
    requires Preimage(prev, n, t, body) == Preimage(prev', n', t', body')
    ensures prev == prev' && n == n' && t == t' && body == body'
  {
    var p, p', w := Preimage(prev, n, t, body), Preimage(prev', n', t', body'), |prev|;
    assert p[..w] == prev && p'[..w] == prev';
    assert p[w..w + 8] == LittleEndian(n, 8) && p'[w..w + 8] == LittleEndian(n', 8);
    assert p[w + 8..w + 16] == LittleEndian(t, 8) && p'[w + 8..w + 16] == LittleEndian(t', 8);
    assert p[w + 16..] == body && p'[w + 16..] == body';
    SixtyFourBits();
    LittleEndianInjective(n, n', 8);
    LittleEndianInjective(t, t', 8);
  }

  /** Equal in everything the hash covers; payloads up to their serialization. */
  ghost predicate SameEntries<P>(env: Env<P>, a: seq<Entry<P>>, b: seq<Entry<P>>) {
    && |a| == |b|
    && forall i | 0 <= i < |a| ::
         && a[i].(payload := b[i].payload) == b[i]
         && env.ser(a[i].payload) == env.ser(b[i].payload)
  }

  /** What two verified ledgers with one tip yield. */
  datatype Evidence = Same | Collision(x: seq<Byte>, y: seq<Byte>) | ZeroPreimage(z: seq<Byte>)

  ghost predicate Convincing<P>(env: Env<P>, a: Chain<P>, b: Chain<P>, e: Evidence) {
    match e
    case Same => SameEntries(env, a.entries, b.entries)
    case Collision(x, y) => x != y && env.sha(x) == env.sha(y)
    case ZeroPreimage(z) => |a.entries| != |b.entries| && HexBytes(env.sha(z)) == Zeros(64)
  }

  function EntryPreimage<P>(env: Env<P>, e: Entry<P>): seq<Byte> {
    Preimage(e.prevHash, e.seqNo, e.timestamp, env.ser(e.payload))
  }

  function Shorter<P>(l: Chain<P>): Chain<P>
    requires l.entries != []
  {
    l.(entries := l.entries[..|l.entries| - 1])
  }

  /** A verified SHA-256 ledger: its last entry, its width-64 link, and the rest still verifies. */
  lemma LastEntry<P>(env: Env<P>, l: Chain<P>)
    requires l.version != FNV_VERSION && Verifies(env, l) && l.entries != []
    ensures var e := l.entries[|l.entries| - 1];
            && e.seqNo == |l.entries| - 1 && e.prevHash == Tip(Shorter(l)) && |e.prevHash| == 64
            && e.hash == HexBytes(env.sha(EntryPreimage(env, e)))
    ensures Verifies(env, Shorter(l))
  {
    var n := |l.entries| - 1;
    assert EntryOk(env, l, n);
    forall i: nat | i < n ensures EntryOk(env, Shorter(l), i) {
      assert EntryOk(env, l, i);
      assert Shorter(l).entries[i] == l.entries[i] && LinkBefore(Shorter(l), i) == LinkBefore(l, i);
    }
    if n > 0 {
      assert EntryOk(env, l, n - 1);
    }
  }

  /**
   Two verified SHA-256 ledgers with the same tip agree entry by entry, or yield two distinct byte
   strings of the same digest, or (only if their lengths differ) a preimage of the all-zero digest.
   */
  lemma {:induction false} TipDeterminesLedger<P>(env: Env<P>, a: Chain<P>, b: Chain<P>) returns (e: Evidence)
    requires a.version != FNV_VERSION && b.version != FNV_VERSION
    requires Verifies(env, a) && Verifies(env, b) && Tip(a) == Tip(b)
    requires |a.entries| <= 0x1_0000_0000_0000_0000 && |b.entries| <= 0x1_0000_0000_0000_0000
    ensures Convincing(env, a, b, e)
    decreases |a.entries|
  {
    if a.entries == [] && b.entries == [] {
      return Same;
    }
    if a.entries == [] {
      LastEntry(env, b);
      return ZeroPreimage(EntryPreimage(env, b.entries[|b.entries| - 1]));
    }
    LastEntry(env, a);
    if b.entries == [] {
      return ZeroPreimage(EntryPreimage(env, a.entries[|a.entries| - 1]));
    }
    LastEntry(env, b);
    var p, q := a.entries[|a.entries| - 1], b.entries[|b.entries| - 1];
    HexBytesInjective(env.sha(EntryPreimage(env, p)), env.sha(EntryPreimage(env, q)));
    if EntryPreimage(env, p) != EntryPreimage(env, q) {
      return Collision(EntryPreimage(env, p), EntryPreimage(env, q));
    }
    LayoutInjective(p.prevHash, p.seqNo, p.timestamp, env.ser(p.payload), q.prevHash, q.seqNo, q.timestamp,
        env.ser(q.payload));
    e := TipDeterminesLedger(env, Shorter(a), Shorter(b));
    if e.Same? {
      assert a.entries == Shorter(a).entries + [p] && b.entries == Shorter(b).entries + [q];
    }
  }

  /** Replacing a payload in a verified ledger is reported at that very entry unless the new payload has the entry's
      hash. */
  lemma EditReported<P>(env: Env<P>, l: Chain<P>, i: nat, payload: P)
    requires Verifies(env, l) && i < |l.entries|
    ensures var e := l.entries[i];
            var edited := l.(entries := l.entries[i := e.(payload := payload)]);
            FirstBroken(env, edited, i) <==>
                ChainHash(env, l.version, e.prevHash, e.seqNo, e.timestamp, payload) != e.hash
  {
    var edited := l.(entries := l.entries[i := l.entries[i].(payload := payload)]);
    assert EntryOk(env, l, i);
    assert LinkBefore(edited, i) == LinkBefore(l, i);
    forall j: nat | j < i ensures EntryOk(env, edited, j) {
      assert EntryOk(env, l, j);
      assert edited.entries[j] == l.entries[j] && LinkBefore(edited, j) == LinkBefore(l, j);
    }
  }

  /** In a legacy ledger a one-byte edit of a serialized payload is always reported. */
  lemma LegacyByteEditReported<P>(env: Env<P>, l: Chain<P>, i: nat, payload: P, k: nat)
    requires l.version == FNV_VERSION && Verifies(env, l) && i < |l.entries|
    requires OneByteApart(env.ser(l.entries[i].payload), env.ser(payload), k)
    ensures FirstBroken(env, l.(entries := l.entries[i := l.entries[i].(payload := payload)]), i)
  {
    var e := l.entries[i];
    var old', new' := EntryPreimage(env, e), Preimage(e.prevHash, e.seqNo, e.timestamp, env.ser(payload));
    var head := e.prevHash + LittleEndian(e.seqNo, 8) + LittleEndian(e.timestamp, 8);
    PrefixedApart(head, env.ser(e.payload), env.ser(payload), k);
    LanesDiffer(old', new', |head| + k);
    assert EntryOk(env, l, i);
    EditReported(env, l, i, payload);
  }

  lemma PrefixedApart(head: seq<Byte>, a: seq<Byte>, b: seq<Byte>, k: nat)
    requires OneByteApart(a, b, k)
    ensures OneByteApart(head + a, head + b, |head| + k)
  {
    var i := |head| + k;
    assert (head + a)[..i] == head + a[..k] && (head + b)[..i] == head + b[..k];
    assert (head + a)[i + 1..] == a[k + 1..] && (head + b)[i + 1..] == b[k + 1..];
  }

  /** Both lanes of the legacy hash, not just one, tell one-byte edits apart. */
  lemma LanesDiffer(a: seq<Byte>, b: seq<Byte>, i: nat)
    requires OneByteApart(a, b, i)
    ensures Feed(OFFSET, a) != Feed(OFFSET, b) && Feed(LANE_OFFSET, a) != Feed(LANE_OFFSET, b)
    ensures FnvHash(a) != FnvHash(b)
  {
    OneByteChanges(OFFSET, a, b, i);
    OneByteChanges(LANE_OFFSET, a, b, i);
    SixtyFourBits();
    var ha, hb := FnvHash(a), FnvHash(b);
    assert ha[..16] == HexNumber(Feed(OFFSET, a), 16) && hb[..16] == HexNumber(Feed(OFFSET, b), 16);
    if ha == hb {
      HexNumberInjective(Feed(OFFSET, a), Feed(OFFSET, b), 16);
    }
  }
}
