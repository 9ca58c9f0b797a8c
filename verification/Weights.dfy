/**
 * Weight measurement (models/safetensors.py): tensor records from a checkpoint's headers, summed
 * into resident bytes with a per-dtype histogram and a tied output head counted once.
 */
module Weights {
  import opened Results

  // ---------------------------------------------------------------- headers

  /** The value under one header key. `offsets` is absent unless it is a list of exactly two numbers. */
  datatype Info =
    | NotAnObject
    | Info(dtype: string, shape: seq<int>, offsets: Option<(int, int)>)

  type Header = seq<(string, Info)>

  datatype TensorInfo = TensorInfo(name: string, dtype: string, shape: seq<int>, nBytes: nat) {
    function NElements(): int { Product(shape) }
  }

  function Product(s: seq<int>): int { if s == [] then 1 else s[0] * Product(s[1..]) }

  /** Bits per element of the dtypes the module knows. */
  function DTypeBits(dtype: string): Option<nat> {
    if dtype in ["BOOL", "U8", "I8", "F8_E4M3", "F8_E5M2"] then Some(8)
    else if dtype in ["I16", "U16", "F16", "BF16"] then Some(16)
    else if dtype in ["I32", "U32", "F32"] then Some(32)
    else if dtype in ["I64", "U64", "F64"] then Some(64)
    else None
  }

  predicate HasOffsets(i: Info) { i.Info? && i.offsets.Some? }

  function Lo(i: Info): int { if HasOffsets(i) then i.offsets.value.0 else 0 }

  function Hi(i: Info): int { if HasOffsets(i) then i.offsets.value.1 else 0 }

  /** Signed size of one record: its offsets where there are two, its dtype and shape otherwise. */
  function SizeOf(i: Info): Option<int>
    requires i.Info?
  {
    if HasOffsets(i) then Some(Hi(i) - Lo(i))
    else match DTypeBits(i.dtype)
      case None => None
      case Some(bits) => Some(-(-Product(i.shape) * bits / 8))
  }

  predicate Readable(i: Info) {
    i.Info? ==> SizeOf(i).Some? && SizeOf(i).value >= 0
  }

  function Tensors(h: Header): (ts: seq<TensorInfo>)
    requires forall i :: 0 <= i < |h| ==> Readable(h[i].1)
  {
    if h == [] then []
    else
      var rest := Tensors(h[..|h| - 1]);
      var (name, info) := h[|h| - 1];
      assert Readable(h[|h| - 1].1);
      if info.Info? then rest + [TensorInfo(name, info.dtype, info.shape, SizeOf(info).value)] else rest
  }

  /** Every record has a size, and there is a record. */
  predicate HeaderReadable(h: Header) {
    (forall i :: 0 <= i < |h| ==> Readable(h[i].1)) && (exists i :: 0 <= i < |h| && h[i].1.Info?)
  }

  /** Fails exactly on an unreadable record, or when the header holds no record at all. */
  method TensorsFromHeader(h: Header) returns (r: Result<seq<TensorInfo>>)
    ensures r == if HeaderReadable(h) then Ok(Tensors(h)) else Err(ModelMetadata)
  {
    var tensors: seq<TensorInfo> := [];
    for n := 0 to |h|
      invariant forall i :: 0 <= i < n ==> Readable(h[i].1)
      invariant tensors == Tensors(h[..n])
      invariant tensors != [] <==> exists i :: 0 <= i < n && h[i].1.Info?
    {
      var (name, info) := h[n];
      assert h[..n + 1][..n] == h[..n];
      if info.Info? {
        var size := SizeOf(info);
        if size.None? || size.value < 0 {
          assert !Readable(h[n].1);
          return Err(ModelMetadata);
        }
        tensors := tensors + [TensorInfo(name, info.dtype, info.shape, size.value)];
      }
    }
    assert h[..|h|] == h;
    if tensors == [] { return Err(ModelMetadata); }
    return Ok(tensors);
  }

  // ---------------------------------------------------------------- payload coverage

  function Total(ts: seq<TensorInfo>, f: TensorInfo -> int): int {
    if ts == [] then 0 else Total(ts[..|ts| - 1], f) + f(ts[|ts| - 1])
  }

  const Size: TensorInfo -> int := (t: TensorInfo) => t.nBytes

  const Count: TensorInfo -> int := (t: TensorInfo) => t.NElements()

  function SizeAs(dtype: string): TensorInfo -> int { (t: TensorInfo) => if t.dtype == dtype then t.nBytes else 0 }

  /**
   The size of a record: the length of its interval when it carries one, whatever its dtype; else the least
   whole bytes of its elements for a known dtype; else none.
   */
  lemma SizesExactly(i: Info)
    requires i.Info?
    ensures i.offsets.Some? ==> SizeOf(i) == Some(i.offsets.value.1 - i.offsets.value.0)
    ensures i.offsets == None && DTypeBits(i.dtype).Some? ==>
              SizeOf(i).Some? && 8 * SizeOf(i).value - 8 < Product(i.shape) * DTypeBits(i.dtype).value <= 8 * SizeOf(i).value
    ensures i.offsets == None && DTypeBits(i.dtype) == None ==> SizeOf(i) == None
  {}

  /** Known dtypes take one, two, four or eight bytes an element; no others are known. */
  lemma WidthsExactly(dtype: string, n: nat)
    requires n >= 1
    ensures var size := SizeOf(Info(dtype, [n], None));
            && (size == Some(n) <==> dtype in ["BOOL", "U8", "I8", "F8_E4M3", "F8_E5M2"])
            && (size == Some(2 * n) <==> dtype in ["I16", "U16", "F16", "BF16"])
            && (size == Some(4 * n) <==> dtype in ["I32", "U32", "F32"])
            && (size == Some(8 * n) <==> dtype in ["I64", "U64", "F64"])
            && (size == None || size == Some(n) || size == Some(2 * n) || size == Some(4 * n) || size == Some(8 * n))
  {
    assert [n as int][1..] == [];
    assert Product([n]) == n;
    DTypesDiffer(dtype);
  }

  lemma DTypesDiffer(dtype: string)
    ensures var one, two, four, eight := dtype in ["BOOL", "U8", "I8", "F8_E4M3", "F8_E5M2"],
              dtype in ["I16", "U16", "F16", "BF16"], dtype in ["I32", "U32", "F32"], dtype in ["I64", "U64", "F64"];
            && (one ==> !two && !four && !eight) && (two ==> !four && !eight) && (four ==> !eight)
  {
    var last := if dtype == "" then ' ' else dtype[|dtype| - 1];
    assert "BOOL"[3] == 'L' && "U8"[1] == '8' && "I8"[1] == '8' && "F8_E4M3"[6] == '3' && "F8_E5M2"[6] == '2';
    assert "I16"[2] == '6' && "U16"[2] == '6' && "F16"[2] == '6' && "BF16"[3] == '6';
    assert "I32"[2] == '2' && "U32"[2] == '2' && "F32"[2] == '2';
    assert "I64"[2] == '4' && "U64"[2] == '4' && "F64"[2] == '4';
    assert |"F8_E5M2"| == 7 && |"F32"| == 3;
  }

  /** Output heads are the two bare names, and any module's. */
  lemma HeadNamesExactly(name: string)
    ensures IsLmHead(name) <==>
              name == "lm_head.weight" || name == "output.weight" || exists prefix :: name == prefix + ".lm_head.weight"
  {
    var tail := ".lm_head.weight";
    if |name| >= 15 && name[|name| - 15..] == tail {
      assert name == name[..|name| - 15] + tail;
    }
    if exists prefix :: name == prefix + tail {
      var prefix :| name == prefix + tail;
      assert name[|name| - 15..] == tail;
    }
  }

  /** Elements multiply over dimensions, and a scalar is one element. */
  lemma {:induction false} ProductsMultiply(a: seq<int>, b: seq<int>)
    ensures Product([]) == 1
    ensures Product(a + b) == Product(a) * Product(b)
    ensures |a| == 1 ==> Product(a) == a[0]
    decreases |a|
  {
    if a == [] {
      assert a + b == b;
    } else {
      assert (a + b)[1..] == a[1..] + b;
      ProductsMultiply(a[1..], b);
      Associate(a[0], Product(a[1..]), Product(b));
      if |a| == 1 { assert a[1..] == []; }
    }
  }

  lemma Associate(a: int, b: int, c: int)
    ensures a * (b * c) == a * b * c
  {}

  /** Every record carries offsets inside a payload of `size` bytes. */
  predicate Inside(h: Header, size: nat) {
    forall i :: 0 <= i < |h| ==> h[i].1.Info? ==>
      HasOffsets(h[i].1) && 0 <= Lo(h[i].1) <= Hi(h[i].1) <= size
  }

  predicate Covers(i: Info, p: nat) {
    Lo(i) <= p < Hi(i)
  }

  /** How many records claim byte `p` of the payload. */
  function Claims(h: Header, p: nat): nat {
    if h == [] then 0 else Claims(h[..|h| - 1], p) + if Covers(h[|h| - 1].1, p) then 1 else 0
  }

  function ClaimsBelow(h: Header, size: nat): nat {
    if size == 0 then 0 else ClaimsBelow(h, size - 1) + Claims(h, size - 1)
  }

  /**
   * Double counting: summing sizes over the records, whatever their order, is summing claims over
   * the payload's bytes.
   */
  lemma {:induction false} RawBytesCountsClaims(h: Header, size: nat)
    requires Inside(h, size)
    ensures forall i :: 0 <= i < |h| ==> Readable(h[i].1)
    ensures Total(Tensors(h), Size) == ClaimsBelow(h, size)
  {
    if h == [] {
      NoClaims(size);
    } else {
      RawBytesCountsClaims(h[..|h| - 1], size);
      LastRecordClaims(h, size);
    }
  }

  lemma NoClaims(size: nat)
    ensures ClaimsBelow([], size) == 0
  {}

  lemma {:induction false} LastRecordClaims(h: Header, size: nat)
    requires h != []
    requires var i := h[|h| - 1].1; i.Info? ==> HasOffsets(i) && 0 <= Lo(i) <= Hi(i)
    ensures ClaimsBelow(h, size) == ClaimsBelow(h[..|h| - 1], size) + Covered(h[|h| - 1].1, size)
  {
    if size > 0 { LastRecordClaims(h, size - 1); }
  }

  /** Bytes of the record's interval that lie below `size`. */
  function Covered(i: Info, size: nat): int {
    if size <= Lo(i) then 0 else (if size < Hi(i) then size else Hi(i)) - Lo(i)
  }

  predicate Disjoint(h: Header, size: nat) { forall p: nat :: p < size ==> Claims(h, p) <= 1 }

  predicate Gapless(h: Header, size: nat) { forall p: nat :: p < size ==> Claims(h, p) >= 1 }

  lemma {:induction false} GaplessCounts(h: Header, size: nat)
    requires Gapless(h, size)
    ensures ClaimsBelow(h, size) >= size
    ensures ClaimsBelow(h, size) == size <==> Disjoint(h, size)
  {
    if size > 0 {
      GaplessCounts(h, size - 1);
      assert Claims(h, size - 1) >= 1;
    }
  }

  lemma {:induction false} DisjointCounts(h: Header, size: nat)
    requires Disjoint(h, size)
    ensures ClaimsBelow(h, size) <= size
    ensures ClaimsBelow(h, size) == size <==> Gapless(h, size)
  {
    if size > 0 {
      DisjointCounts(h, size - 1);
      assert Claims(h, size - 1) <= 1;
    }
  }

  /** Of "no overlap" and "no gap", either one makes "sums to the payload length" say the other. */
  lemma TilingSumsToPayload(h: Header, size: nat)
    requires Inside(h, size)
    ensures forall i :: 0 <= i < |h| ==> Readable(h[i].1)
    ensures Disjoint(h, size) ==> (Total(Tensors(h), Size) == size <==> Gapless(h, size))
    ensures Gapless(h, size) ==> (Total(Tensors(h), Size) == size <==> Disjoint(h, size))
  {
    RawBytesCountsClaims(h, size);
    if Disjoint(h, size) { DisjointCounts(h, size); }
    if Gapless(h, size) { GaplessCounts(h, size); }
  }

  /** Where the first `n` records leave off. */
  function End(h: Header, n: nat): int
    requires n <= |h|
  {
    if n == 0 then 0 else Hi(h[n - 1].1)
  }

  predicate Follows(h: Header, i: nat)
    requires i < |h|
  {
    HasOffsets(h[i].1) && Lo(h[i].1) == End(h, i) <= Hi(h[i].1)
  }

  /** Offsets that follow one another in header order telescope to the payload length. */
  lemma {:induction false} ContiguousTelescopes(h: Header)
    requires forall i :: 0 <= i < |h| ==> Follows(h, i)
    ensures forall i :: 0 <= i < |h| ==> Readable(h[i].1)
    ensures Total(Tensors(h), Size) == End(h, |h|)
  {
    if h != [] {
      var init := h[..|h| - 1];
      forall i | 0 <= i < |init| ensures Follows(init, i) { assert Follows(h, i); }
      assert Follows(h, |h| - 1);
      ContiguousTelescopes(init);
    }
  }

  // ---------------------------------------------------------------- sums over tensor lists

  lemma {:induction false} TotalConcat(a: seq<TensorInfo>, b: seq<TensorInfo>, f: TensorInfo -> int)
    ensures Total(a + b, f) == Total(a, f) + Total(b, f)
  {
    if b == [] {
      assert a + b == a;
    } else {
      var ab := a + b;
      assert ab[..|ab| - 1] == a + b[..|b| - 1];
      TotalConcat(a, b[..|b| - 1], f);
    }
  }

  function Drop(ts: seq<TensorInfo>, i: nat): (rest: seq<TensorInfo>)
    requires i < |ts|
    ensures |rest| == |ts| - 1
  {
    ts[..i] + ts[i + 1..]
  }

  lemma TotalSnoc(ts: seq<TensorInfo>, t: TensorInfo, f: TensorInfo -> int)
    ensures Total(ts + [t], f) == Total(ts, f) + f(t)
  {
    assert (ts + [t])[..|ts|] == ts;
  }

  lemma TotalDrop(ts: seq<TensorInfo>, i: nat, f: TensorInfo -> int)
    requires i < |ts|
    ensures Total(ts, f) == Total(Drop(ts, i), f) + f(ts[i])
  {
    hide Total;
    DropSplits(ts, i);
    TotalAround(ts[..i], ts[i], ts[i + 1..], f);
  }

  lemma DropSplits<T>(ts: seq<T>, i: nat)
    requires i < |ts|
    ensures ts == ts[..i] + [ts[i]] + ts[i + 1..]
  {}

  lemma TotalAround(a: seq<TensorInfo>, t: TensorInfo, b: seq<TensorInfo>, f: TensorInfo -> int)
    ensures Total(a + [t] + b, f) == Total(a + b, f) + f(t)
  {
    hide Total;
    TotalConcat(a + [t], b, f);
    TotalSnoc(a, t, f);
    TotalConcat(a, b, f);
  }

  lemma {:induction false} TotalPermutes(a: seq<TensorInfo>, b: seq<TensorInfo>, f: TensorInfo -> int)
    requires multiset(a) == multiset(b)
    ensures Total(a, f) == Total(b, f)
  {
    if a == [] {
      assert |multiset(b)| == 0;
    } else {
      var i := MatchLast(a, b);
      TotalPermutes(a[..|a| - 1], Drop(b, i), f);
      TotalDrop(b, i, f);
    }
  }

  /** The last of one list, found in a permutation of it. */
  lemma MatchLast(a: seq<TensorInfo>, b: seq<TensorInfo>) returns (i: nat)
    requires a != [] && multiset(a) == multiset(b)
    ensures i < |b| && b[i] == a[|a| - 1] && multiset(Drop(b, i)) == multiset(a[..|a| - 1])
  {
    var init, t := a[..|a| - 1], a[|a| - 1];
    assert a == init + [t];
    assert t in multiset(b);
    i :| i < |b| && b[i] == t;
    DropSplits(b, i);
    assert multiset(b) == multiset(Drop(b, i)) + multiset{t};
    assert multiset(a) == multiset(init) + multiset{t};
    SameRest(multiset(init), multiset(Drop(b, i)), t);
  }

  lemma SameRest<T>(p: multiset<T>, q: multiset<T>, t: T)
    requires p + multiset{t} == q + multiset{t}
    ensures p == q
  {
    assert p == p + multiset{t} - multiset{t};
    assert q == q + multiset{t} - multiset{t};
  }

  lemma {:induction false} SizesNonNegative(ts: seq<TensorInfo>, dtype: string)
    ensures 0 <= Total(ts, SizeAs(dtype)) <= Total(ts, Size)
    ensures forall i :: 0 <= i < |ts| && ts[i].dtype == dtype ==> ts[i].nBytes <= Total(ts, SizeAs(dtype))
    ensures Total(ts, SizeAs(dtype)) > 0 ==> exists i :: 0 <= i < |ts| && ts[i].dtype == dtype
  {
    if ts != [] { SizesNonNegative(ts[..|ts| - 1], dtype); }
  }

  // ---------------------------------------------------------------- summary

  datatype Measurement = Measurement(
    totalBytes: int, rawBytes: int, nParams: int, dtypeBytes: map<string, int>,
    tiedDedupBytes: int, nTensors: nat, nShards: nat)

  predicate IsLmHead(name: string) {
    name in ["lm_head.weight", "output.weight"]
    || (|name| >= 15 && name[|name| - 15..] == ".lm_head.weight")
  }

  /** Index of the first output head, or the length when there is none. */
  function FirstHead(ts: seq<TensorInfo>): (i: nat)
    ensures i <= |ts| && (i < |ts| ==> IsLmHead(ts[i].name))
    ensures forall j :: 0 <= j < i ==> !IsLmHead(ts[j].name)
  {
    if ts == [] || IsLmHead(ts[0].name) then 0 else 1 + FirstHead(ts[1..])
  }

  /** The position of the tensor that is not counted, if any. */
  function Dropped(ts: seq<TensorInfo>, tied: bool): (i: nat)
    ensures i <= |ts|
  {
    if tied then FirstHead(ts) else |ts|
  }

  function Resident(ts: seq<TensorInfo>, head: nat, f: TensorInfo -> int): int {
    Total(ts, f) - if head < |ts| then f(ts[head]) else 0
  }

  /** What a measurement says of a tensor list. */
  ghost predicate Measures(m: Measurement, ts: seq<TensorInfo>, tied: bool, nShards: nat) {
    var head := Dropped(ts, tied);
    && m.rawBytes == Total(ts, Size)
    && m.tiedDedupBytes == (if head < |ts| then ts[head].nBytes else 0)
    && m.totalBytes == Resident(ts, head, Size)
    && m.nParams == Resident(ts, head, Count)
    && (forall k :: k in m.dtypeBytes <==> Resident(ts, head, SizeAs(k)) > 0)
    && (forall k :: k in m.dtypeBytes ==> m.dtypeBytes[k] == Resident(ts, head, SizeAs(k)))
    && m.nTensors == |ts| && m.nShards == nShards
  }

  /** A running histogram: every dtype seen, with its bytes. */
  ghost predicate HistogramOf(hist: map<string, int>, ts: seq<TensorInfo>) {
    && (forall i :: 0 <= i < |ts| ==> ts[i].dtype in hist)
    && (forall k :: Total(ts, SizeAs(k)) == Entry(hist, k))
  }

  function Entry(hist: map<string, int>, k: string): int { if k in hist then hist[k] else 0 }

  lemma HistogramStep(hist: map<string, int>, ts: seq<TensorInfo>, t: TensorInfo)
    requires HistogramOf(hist, ts)
    ensures HistogramOf(hist[t.dtype := Entry(hist, t.dtype) + t.nBytes], ts + [t])
  {
    hide Total;
    forall k ensures Total(ts + [t], SizeAs(k)) == Entry(hist[t.dtype := Entry(hist, t.dtype) + t.nBytes], k) {
      TotalSnoc(ts, t, SizeAs(k));
      assert Total(ts, SizeAs(k)) == Entry(hist, k);
    }
  }

  /** Raises only while formatting the dedup percentage of a checkpoint that holds no bytes. */
  method Summarise(ts: seq<TensorInfo>, tied: bool, nShards: nat) returns (r: Result<Measurement>)
    ensures r.Ok? <==> !(Dropped(ts, tied) < |ts| && Total(ts, Size) == 0)
    ensures r.Ok? ==> Measures(r.value, ts, tied, nShards)
    ensures r.Err? ==> r.error == ZeroDivision
  {
    var raw, params := 0, 0;
    var hist: map<string, int> := map[];
    for n := 0 to |ts|
      invariant raw == Total(ts[..n], Size) && params == Total(ts[..n], Count)
      invariant HistogramOf(hist, ts[..n])
    {
      hide *;
      var t := ts[n];
      assert ts[..n + 1] == ts[..n] + [t];
      TotalSnoc(ts[..n], t, Size);
      TotalSnoc(ts[..n], t, Count);
      HistogramStep(hist, ts[..n], t);
      raw, params := raw + Size(t), params + Count(t);
      hist := hist[t.dtype := Entry(hist, t.dtype) + t.nBytes];
    }
    hide Total;
    assert ts[..|ts|] == ts;
    var dedup := 0;
    if tied {
      var head := FirstHead(ts);
      if head < |ts| {
        var t := ts[head];
        dedup, params := t.nBytes, params - t.NElements();
        hist := hist[t.dtype := Entry(hist, t.dtype) - t.nBytes];
        if raw == 0 { return Err(ZeroDivision); }
      }
    }
    assert forall k :: Entry(hist, k) == Resident(ts, Dropped(ts, tied), SizeAs(k));
    var kept := map k | k in hist && hist[k] > 0 :: hist[k];
    return Ok(Measurement(raw - dedup, raw, params, kept, dedup, |ts|, nShards));
  }

  // ---------------------------------------------------------------- conservation

  ghost function Pick(m: map<string, int>): (k: string)
    requires m != map[]
    ensures k in m
  {
    assert m.Keys != {};
    var k :| k in m.Keys;
    k
  }

  ghost function SumValues(m: map<string, int>): int
    decreases |m|
  {
    if m == map[] then 0 else m[Pick(m)] + SumValues(m - {Pick(m)})
  }

  function Without(ts: seq<TensorInfo>, dtype: string): seq<TensorInfo> {
    if ts == [] then []
    else
      var rest := Without(ts[..|ts| - 1], dtype);
      if ts[|ts| - 1].dtype == dtype then rest else rest + [ts[|ts| - 1]]
  }

  lemma {:induction false} WithoutSplits(ts: seq<TensorInfo>, dtype: string, other: string)
    ensures Total(ts, Size) == Total(Without(ts, dtype), Size) + Total(ts, SizeAs(dtype))
    ensures Total(Without(ts, dtype), SizeAs(other)) == if other == dtype then 0 else Total(ts, SizeAs(other))
  {
    if ts != [] { WithoutSplits(ts[..|ts| - 1], dtype, other); }
  }

  /** A histogram with no empty entries sums to the list's bytes. */
  lemma {:induction false} HistogramConserves(ts: seq<TensorInfo>, m: map<string, int>)
    requires forall k :: k in m <==> Total(ts, SizeAs(k)) > 0
    requires forall k :: k in m ==> m[k] == Total(ts, SizeAs(k))
    ensures SumValues(m) == Total(ts, Size)
    decreases |m|
  {
    if m == map[] {
      NoBytes(ts);
    } else {
      var k := Pick(m);
      var rest := Without(ts, k);
      forall j ensures Total(rest, SizeAs(j)) == if j == k then 0 else Total(ts, SizeAs(j)) {
        WithoutSplits(ts, k, j);
      }
      HistogramConserves(rest, m - {k});
      WithoutSplits(ts, k, k);
    }
  }

  lemma {:induction false} NoBytes(ts: seq<TensorInfo>)
    requires forall k :: Total(ts, SizeAs(k)) <= 0
    ensures Total(ts, Size) == 0
  {
    if ts != [] {
      forall k ensures Total(ts[..|ts| - 1], SizeAs(k)) <= 0 {
        SizesNonNegative(ts[..|ts| - 1], k);
        assert Total(ts, SizeAs(k)) <= 0;
      }
      NoBytes(ts[..|ts| - 1]);
      SizesNonNegative(ts, ts[|ts| - 1].dtype);
      assert ts[|ts| - 1].nBytes <= Total(ts, SizeAs(ts[|ts| - 1].dtype));
    }
  }

  /** A tied head is dropped whole: the measurement is that of the list without that tensor. */
  lemma DedupRemovesOneTensor(m: Measurement, ts: seq<TensorInfo>, nShards: nat)
    requires Measures(m, ts, true, nShards) && FirstHead(ts) < |ts|
    ensures Measures(WithoutHead(m), Drop(ts, FirstHead(ts)), false, nShards)
  {
    hide Total, Drop, FirstHead, Resident, Product;
    var head := FirstHead(ts);
    RestIsResident(ts, head, Size);
    RestIsResident(ts, head, Count);
    forall k ensures Resident(Drop(ts, head), |ts| - 1, SizeAs(k)) == Resident(ts, head, SizeAs(k)) {
      RestIsResident(ts, head, SizeAs(k));
    }
  }

  lemma RestIsResident(ts: seq<TensorInfo>, head: nat, f: TensorInfo -> int)
    requires head < |ts|
    ensures Total(Drop(ts, head), f) == Resident(ts, head, f) == Resident(Drop(ts, head), |ts| - 1, f)
  {
    TotalDrop(ts, head, f);
  }

  /** The measurement of the same checkpoint had it not stored its head twice. */
  function WithoutHead(m: Measurement): Measurement {
    m.(rawBytes := m.totalBytes, tiedDedupBytes := 0, nTensors := if m.nTensors == 0 then 0 else m.nTensors - 1)
  }

  /** Nothing is lost: the histogram sums to the resident bytes, and those and the dedup to the raw bytes. */
  lemma MeasurementConserves(m: Measurement, ts: seq<TensorInfo>, tied: bool, nShards: nat)
    requires Measures(m, ts, tied, nShards)
    ensures SumValues(m.dtypeBytes) == m.totalBytes
    ensures m.rawBytes == m.totalBytes + m.tiedDedupBytes
    ensures 0 <= m.totalBytes <= m.rawBytes
    ensures forall k :: k in m.dtypeBytes ==> 0 < m.dtypeBytes[k] <= m.totalBytes
  {
    if Dropped(ts, tied) < |ts| {
      DedupRemovesOneTensor(m, ts, nShards);
      UntiedConserves(WithoutHead(m), Drop(ts, FirstHead(ts)), nShards);
    } else {
      UntiedConserves(m, ts, nShards);
    }
  }

  lemma UntiedConserves(m: Measurement, ts: seq<TensorInfo>, nShards: nat)
    requires Measures(m, ts, false, nShards)
    ensures SumValues(m.dtypeBytes) == m.totalBytes && 0 <= m.totalBytes
    ensures forall k :: k in m.dtypeBytes ==> m.dtypeBytes[k] <= m.totalBytes
  {
    hide Total;
    assert forall k :: Resident(ts, |ts|, SizeAs(k)) == Total(ts, SizeAs(k));
    HistogramConserves(ts, m.dtypeBytes);
    SizesNonNegative(ts, "");
    forall k | k in m.dtypeBytes ensures m.dtypeBytes[k] <= m.totalBytes { SizesNonNegative(ts, k); }
  }

  /** The description leaves no freedom. */
  lemma MeasurementUnique(m: Measurement, m': Measurement, ts: seq<TensorInfo>, tied: bool, nShards: nat)
    requires Measures(m, ts, tied, nShards) && Measures(m', ts, tied, nShards)
    ensures m == m'
  {
    assert forall k :: k in m.dtypeBytes <==> k in m'.dtypeBytes;
    assert m.dtypeBytes == m'.dtypeBytes;
  }

  // ---------------------------------------------------------------- shards

  function AllTensors(headers: seq<Header>): seq<TensorInfo>
    requires forall s :: 0 <= s < |headers| ==> forall i :: 0 <= i < |headers[s]| ==> Readable(headers[s][i].1)
  {
    if headers == [] then [] else AllTensors(headers[..|headers| - 1]) + Tensors(headers[|headers| - 1])
  }

  /** A checkpoint directory, given the parsed header of each of its shards in name order. */
  method MeasureLocal(headers: seq<Header>, tied: bool) returns (r: Result<Measurement>)
    ensures r == Err(ModelMetadata) <==> exists s :: 0 <= s < |headers| && !HeaderReadable(headers[s])
    ensures r.Ok? ==> Measures(r.value, AllTensors(headers), tied, |headers|)
    ensures r == Err(ZeroDivision) <==>
              && (forall s :: 0 <= s < |headers| ==> HeaderReadable(headers[s]))
              && Dropped(AllTensors(headers), tied) < |AllTensors(headers)|
              && Total(AllTensors(headers), Size) == 0
    ensures r.Err? ==> r.error == ModelMetadata || r.error == ZeroDivision
  {
    var tensors: seq<TensorInfo> := [];
    for s := 0 to |headers|
      invariant forall i :: 0 <= i < s ==> HeaderReadable(headers[i])
      invariant tensors == AllTensors(headers[..s])
    {
      assert headers[..s + 1][..s] == headers[..s];
      var shard := TensorsFromHeader(headers[s]);
      if shard.Err? { return Err(ModelMetadata); }
      tensors := tensors + shard.value;
    }
    assert headers[..|headers|] == headers;
    r := Summarise(tensors, tied, |headers|);
  }

  /** Splitting a checkpoint anywhere changes no untied figure: bytes, elements and histogram add up. */
  lemma ShardsAdd(m: Measurement, a: Measurement, b: Measurement,
                  s: seq<TensorInfo>, t: seq<TensorInfo>, n: nat, k: nat)
    requires Measures(m, s + t, false, n + k) && Measures(a, s, false, n) && Measures(b, t, false, k)
    ensures m.rawBytes == a.rawBytes + b.rawBytes
    ensures m.nParams == a.nParams + b.nParams
    ensures m.dtypeBytes.Keys == a.dtypeBytes.Keys + b.dtypeBytes.Keys
    ensures forall d :: d in m.dtypeBytes ==>
              m.dtypeBytes[d] == (if d in a.dtypeBytes then a.dtypeBytes[d] else 0)
                               + (if d in b.dtypeBytes then b.dtypeBytes[d] else 0)
  {
    TotalConcat(s, t, Size);
    TotalConcat(s, t, Count);
    forall d ensures Total(s + t, SizeAs(d)) == Total(s, SizeAs(d)) + Total(t, SizeAs(d))
                  && Total(s, SizeAs(d)) >= 0 && Total(t, SizeAs(d)) >= 0 {
      TotalConcat(s, t, SizeAs(d));
      SizesNonNegative(s, d);
      SizesNonNegative(t, d);
    }
  }

  // ---------------------------------------------------------------- order of the tensors

  /** Two heads whose removal leaves the same figures. */
  predicate SameEffect(a: TensorInfo, b: TensorInfo) {
    a.nBytes == b.nBytes && a.NElements() == b.NElements() && (a.dtype == b.dtype || a.nBytes == 0)
  }

  ghost predicate SameMeasurement(a: seq<TensorInfo>, b: seq<TensorInfo>) {
    forall m, n :: Measures(m, a, true, n) <==> Measures(m, b, true, n)
  }

  predicate HeadsInterchangeable(ts: seq<TensorInfo>) {
    forall i, j :: 0 <= i < |ts| && 0 <= j < |ts| && IsLmHead(ts[i].name) && IsLmHead(ts[j].name)
      ==> SameEffect(ts[i], ts[j])
  }

  /** Only the first head is dropped, so tensor order matters exactly when two heads differ. */
  lemma OrderIrrelevantExactly(ts: seq<TensorInfo>)
    ensures HeadsInterchangeable(ts) <==> forall us :: multiset(us) == multiset(ts) ==> SameMeasurement(us, ts)
  {
    if HeadsInterchangeable(ts) {
      forall us | multiset(us) == multiset(ts) ensures SameMeasurement(us, ts) { Interchange(us, ts); }
    } else {
      var i, j :| 0 <= i < |ts| && 0 <= j < |ts| && IsLmHead(ts[i].name) && IsLmHead(ts[j].name)
                  && !SameEffect(ts[i], ts[j]);
      if forall us :: multiset(us) == multiset(ts) ==> SameMeasurement(us, ts) {
        var us, vs := ToFront(ts, i), ToFront(ts, j);
        var m := MeasurementOf(us);
        assert SameMeasurement(us, ts) && SameMeasurement(vs, ts);
        assert Measures(m, vs, true, 1);
        FrontHeadsDiffer(ts, i, j, m);
      }
    }
  }

  function ToFront(ts: seq<TensorInfo>, i: nat): (us: seq<TensorInfo>)
    requires i < |ts|
    ensures multiset(us) == multiset(ts) && |us| == |ts| && us[0] == ts[i]
  {
    assert ts == ts[..i] + [ts[i]] + ts[i + 1..];
    [ts[i]] + Drop(ts, i)
  }

  /** Every list has a measurement. */
  ghost function MeasurementOf(ts: seq<TensorInfo>): (m: Measurement)
    ensures Measures(m, ts, true, 1)
  {
    var head := FirstHead(ts);
    var dtypes := set t | t in ts :: t.dtype;
    var hist := map k | k in dtypes && Resident(ts, head, SizeAs(k)) > 0 :: Resident(ts, head, SizeAs(k));
    assert forall k :: Resident(ts, head, SizeAs(k)) > 0 ==> k in dtypes by {
      forall k | Resident(ts, head, SizeAs(k)) > 0 ensures k in dtypes {
        SizesNonNegative(ts, k);
      }
    }
    Measurement(Resident(ts, head, Size), Total(ts, Size), Resident(ts, head, Count), hist,
                if head < |ts| then ts[head].nBytes else 0, |ts|, 1)
  }

  lemma FrontHeadsDiffer(ts: seq<TensorInfo>, i: nat, j: nat, m: Measurement)
    requires i < |ts| && j < |ts| && IsLmHead(ts[i].name) && IsLmHead(ts[j].name)
    requires Measures(m, ToFront(ts, i), true, 1) && Measures(m, ToFront(ts, j), true, 1)
    ensures SameEffect(ts[i], ts[j])
  {
    var us, vs := ToFront(ts, i), ToFront(ts, j);
    assert FirstHead(us) == 0 && FirstHead(vs) == 0;
    TotalPermutes(us, vs, Count);
    var k := ts[i].dtype;
    TotalPermutes(us, vs, SizeAs(k));
    SizesNonNegative(us, k);
    assert Resident(us, 0, SizeAs(k)) == Total(us, SizeAs(k)) - ts[i].nBytes;
  }

  lemma Interchange(us: seq<TensorInfo>, ts: seq<TensorInfo>)
    requires multiset(us) == multiset(ts) && HeadsInterchangeable(ts)
    ensures SameMeasurement(us, ts)
  {
    hide Total, Product;
    var i, j := FirstHead(us), FirstHead(ts);
    assert |us| == |ts| by { assert |multiset(us)| == |us| && |multiset(ts)| == |ts|; }
    assert i < |us| ==> us[i] in multiset(ts);
    assert j < |ts| ==> ts[j] in multiset(us);
    TotalPermutes(us, ts, Size);
    TotalPermutes(us, ts, Count);
    forall k ensures Resident(us, i, SizeAs(k)) == Resident(ts, j, SizeAs(k)) {
      TotalPermutes(us, ts, SizeAs(k));
    }
  }
}
