/** The prefix-compressed block (table/block_builder.cc, table/block.cc). */
module BlockFormat {
  import opened Options
  import opened Coding

  // DecodeEntry's results; `at` is where the key delta starts.
  datatype Header = Header(shared: nat, nonShared: nat, valueLength: nat, at: nat)

  /** GetVarint32Ptr inside [p, limit): the value and the position after it. */
  function Varint32At(data: Bytes, p: nat, limit: nat): (r: Option<Varint>)
    requires p <= limit <= |data|
    ensures r.Some? ==> p < r.value.used <= limit
  {
    match DecodeVarint(data[p..limit], 5)
    case None => None
    case Some(v) => Some(Varint(v.value % LIMIT32, p + v.used))
  }

  // A varint read at each position.
  type Reader32 = nat -> Option<Varint>

  function ReaderOf(data: Bytes, limit: nat): Reader32 {
    (p: nat) => if p <= limit <= |data| then Varint32At(data, p, limit) else None
  }

  /** DecodeEntry: three one-byte numbers, or else three varints. */
  function DecodeEntry(data: Bytes, p: nat, limit: nat): (r: Option<Header>)
    requires p <= limit <= |data|
  {
    DecodeWith(ReaderOf(data, limit), data, p, limit)
  }

  function DecodeWith(read: Reader32, data: Bytes, p: nat, limit: nat): (r: Option<Header>)
    requires p <= limit <= |data|
  {
    if limit - p < 3 then None
    else if data[p] < 128 && data[p + 1] < 128 && data[p + 2] < 128 then
      Fitting(Header(data[p], data[p + 1], data[p + 2], p + 3), limit)
    else match read(p)
      case None => None
      case Some(a) => match read(a.used)
        case None => None
        case Some(b) => match read(b.used)
          case None => None
          case Some(c) => Fitting(Header(a.value, b.value, c.value, c.used), limit)
  }

  // The sum of the lengths is a 32-bit one.
  function Fitting(h: Header, limit: nat): Option<Header> {
    if limit - h.at < (h.nonShared + h.valueLength) % LIMIT32 then None else Some(h)
  }

  // One entry as the builder writes it.
  function Lengths(shared: nat, delta: Bytes, value: Bytes): (r: Bytes)
    ensures 3 <= |r|
  {
    EncodeVarint(shared) + EncodeVarint(|delta|) + EncodeVarint(|value|)
  }

  // The size of an entry that shares some bytes of its key and not others.
  function EntrySize(shared: nat, nonShared: nat, valueLength: nat): nat {
    |EncodeVarint(shared)| + |EncodeVarint(nonShared)| + |EncodeVarint(valueLength)| + nonShared + valueLength
  }

  function EntryBytes(shared: nat, delta: Bytes, value: Bytes): (r: Bytes)
    ensures 3 <= |r| && |r| == EntrySize(shared, |delta|, |value|)
  {
    Lengths(shared, delta, value) + delta + value
  }

  lemma Varint32Reads(data: Bytes, p: nat, limit: nat, x: nat)
    requires p <= limit <= |data| && x < LIMIT32 && EncodeVarint(x) <= data[p..limit]
    ensures Varint32At(data, p, limit) == Some(Varint(x, p + |EncodeVarint(x)|))
  {
    Power128At5();
    var e := EncodeVarint(x);
    var tail := data[p..limit][|e|..];
    assert data[p..limit] == e + tail;
    VarintRoundTrip(x, tail, 5);
  }

  /** Reading at p where e, the encoding of x, stands. */
  ghost predicate ReadsAs(read: Reader32, p: nat, x: nat, e: Bytes) {
    read(p) == Some(Varint(x, p + |e|))
  }

  ghost predicate ReadsWhen(read: Reader32, data: Bytes, limit: nat, p: nat, x: nat, e: Bytes) {
    p <= limit <= |data| && x < LIMIT32 && e == EncodeVarint(x) && e <= data[p..limit] ==> ReadsAs(read, p, x, e)
  }

  /** The reader finds every varint that is there. */
  ghost predicate ReadsAll(read: Reader32, data: Bytes, limit: nat) {
    forall p: nat, x: nat, e :: ReadsWhen(read, data, limit, p, x, e)
  }

  lemma ReaderReads(data: Bytes, limit: nat)
    ensures ReadsAll(ReaderOf(data, limit), data, limit)
  {
    forall p: nat, x: nat, e ensures ReadsWhen(ReaderOf(data, limit), data, limit, p, x, e) {
      if p <= limit <= |data| && x < LIMIT32 && e == EncodeVarint(x) && e <= data[p..limit] {
        Varint32Reads(data, p, limit, x);
      }
    }
  }

  lemma Peel3(data: Bytes, p: nat, limit: nat, e: Bytes, f: Bytes, g: Bytes)
    requires p <= limit <= |data| && e + f + g <= data[p..limit]
    ensures p + |e| + |f| + |g| <= limit && e <= data[p..limit] && f <= data[p + |e|..limit]
      && g <= data[p + |e| + |f|..limit]
  {
    Peel(data, p, limit, e + f, g);
    Peel(data, p, limit, e, f);
  }

  lemma ThreeVarints(read: Reader32, data: Bytes, p: nat, limit: nat, x: nat, y: nat, z: nat, e: Bytes, f: Bytes,
    g: Bytes)
    requires ReadsAll(read, data, limit) && p <= limit <= |data| && x < LIMIT32 && y < LIMIT32 && z < LIMIT32
    requires e == EncodeVarint(x) && f == EncodeVarint(y) && g == EncodeVarint(z) && e + f + g <= data[p..limit]
    ensures p + |e| + |f| + |g| <= limit
    ensures ReadsAs(read, p, x, e) && ReadsAs(read, p + |e|, y, f) && ReadsAs(read, p + |e| + |f|, z, g)
  {
    Peel3(data, p, limit, e, f, g);
    assert ReadsWhen(read, data, limit, p, x, e);
    assert ReadsWhen(read, data, limit, p + |e|, y, f);
    assert ReadsWhen(read, data, limit, p + |e| + |f|, z, g);
  }

  lemma DecodesWith(read: Reader32, data: Bytes, p: nat, limit: nat, x: nat, y: nat, z: nat, e: Bytes, f: Bytes,
    g: Bytes)
    requires p <= limit <= |data| && limit - p >= 3
    requires ReadsAs(read, p, x, e) && ReadsAs(read, p + |e|, y, f) && ReadsAs(read, p + |e| + |f|, z, g)
    requires data[p] < 128 && data[p + 1] < 128 && data[p + 2] < 128
      ==> data[p] == x && data[p + 1] == y && data[p + 2] == z && |e + f + g| == 3
    ensures DecodeWith(read, data, p, limit) == Fitting(Header(x, y, z, p + |e + f + g|), limit)
  {}

  /** A number under 128 is the one byte. */
  lemma OneByte(x: nat)
    ensures EncodeVarint(x)[0] < 128 <==> x < 128
    ensures x < 128 ==> EncodeVarint(x) == [x]
  {}

  // Both ways of reading the three numbers agree.
  lemma FastPath(data: Bytes, p: nat, limit: nat, x: nat, y: nat, z: nat, e: Bytes, f: Bytes, g: Bytes)
    requires p <= limit <= |data| && limit - p >= 3
    requires e == EncodeVarint(x) && f == EncodeVarint(y) && g == EncodeVarint(z) && e + f + g <= data[p..limit]
    requires data[p] < 128 && data[p + 1] < 128 && data[p + 2] < 128
    ensures data[p] == x && data[p + 1] == y && data[p + 2] == z && |e + f + g| == 3
  {
    OneByte(x);
    OneByte(y);
    OneByte(z);
    assert e[0] == (e + f + g)[0] == data[p..limit][0];
    assert e == [x] && f[0] == (e + f + g)[1] == data[p..limit][1];
    assert f == [y] && g[0] == (e + f + g)[2] == data[p..limit][2];
  }

  /** Where the builder put an entry, the reader decodes it. */
  ghost predicate EntryAt(data: Bytes, p: nat, limit: nat, shared: nat, delta: Bytes, value: Bytes, next: nat) {
    && p <= limit <= |data| && DecodeEntry(data, p, limit).Some?
    && var h := DecodeEntry(data, p, limit).value;
       h.shared == shared && h.nonShared == |delta| && h.valueLength == |value|
         && next == h.at + |delta| + |value| <= limit
       && data[h.at..h.at + |delta|] == delta && data[h.at + |delta|..next] == value
  }

  lemma EntryDecodes(data: Bytes, p: nat, limit: nat, shared: nat, delta: Bytes, value: Bytes)
    requires p <= limit <= |data| && limit < LIMIT32 && shared < LIMIT32
    requires EntryBytes(shared, delta, value) <= data[p..limit]
    ensures EntryAt(data, p, limit, shared, delta, value, p + |EntryBytes(shared, delta, value)|)
  {
    var l := Lengths(shared, delta, value);
    Peel(data, p, limit, l + delta, value);
    Peel(data, p, limit, l, delta);
    HeaderDecodes(data, p, limit, shared, |delta|, |value|, EncodeVarint(shared), EncodeVarint(|delta|),
      EncodeVarint(|value|));
    var at := p + |l|;
    assert delta == data[at..limit][..|delta|] == data[at..at + |delta|];
    assert value == data[at + |delta|..limit][..|value|] == data[at + |delta|..at + |delta| + |value|];
  }

  lemma HeaderDecodes(data: Bytes, p: nat, limit: nat, x: nat, y: nat, z: nat, e: Bytes, f: Bytes, g: Bytes)
    requires p <= limit <= |data| && x < LIMIT32 && y < LIMIT32 && z < LIMIT32
    requires e == EncodeVarint(x) && f == EncodeVarint(y) && g == EncodeVarint(z) && e + f + g <= data[p..limit]
    ensures DecodeEntry(data, p, limit) == Fitting(Header(x, y, z, p + |e + f + g|), limit)
  {
    ReaderReads(data, limit);
    ThreeVarints(ReaderOf(data, limit), data, p, limit, x, y, z, e, f, g);
    if data[p] < 128 && data[p + 1] < 128 && data[p + 2] < 128 {
      FastPath(data, p, limit, x, y, z, e, f, g);
    }
    DecodesWith(ReaderOf(data, limit), data, p, limit, x, y, z, e, f, g);
  }
}
