/** The tagged binary serialiser of lua-seri.c. A Lua value is a datatype; a table is its array part
    and its other fields in traversal order, without `__pairs`. */
module Seri {
  import opened Common

  datatype Pair = Pair(key: Value, val: Value)

  /** `Real` and `Ptr` are carried as their 64 bits; `Other` is any type that cannot be packed. */
  datatype Value =
    | Nil
    | Bool(b: bool)
    | Int(i: int)
    | Real(bits: nat)
    | Ptr(bits: nat)
    | Str(s: seq<Byte>)
    | Table(items: seq<Value>, fields: seq<Pair>)
    | Other

  const TYPE_NIL: nat := 0
  const TYPE_BOOLEAN: nat := 1
  const TYPE_NUMBER: nat := 2
  const TYPE_USERDATA: nat := 3
  const TYPE_SHORT_STRING: nat := 4
  const TYPE_LONG_STRING: nat := 5
  const TYPE_TABLE: nat := 6

  const NUMBER_ZERO: nat := 0
  const NUMBER_BYTE: nat := 1
  const NUMBER_WORD: nat := 2
  const NUMBER_DWORD: nat := 4
  const NUMBER_QWORD: nat := 6
  const NUMBER_REAL: nat := 8

  const MAX_COOKIE: nat := 32
  const MAX_DEPTH: nat := 32
  const TWO_31: int := 0x8000_0000
  const TWO_63: int := 0x8000_0000_0000_0000

  //////////////////////////////////////////////////////////////////////////////
  // Two's complement
  //////////////////////////////////////////////////////////////////////////////

  /** Two's complement in `k` bytes. */
  function Unsigned(i: int, k: nat): int {
    if i < 0 then i + Power256(k) else i
  }

  function Signed(n: int, k: nat): int {
    if 2 * n >= Power256(k) then n - Power256(k) else n
  }

  //////////////////////////////////////////////////////////////////////////////
  // Packing
  //////////////////////////////////////////////////////////////////////////////

  function Tag(t: nat, cookie: nat): (b: Byte)
    requires t < 8 && cookie < 32
    ensures b % 8 == t && b / 8 == cookie
  {
    t + 8 * cookie
  }

  predicate IsInt64(i: int) {
    -TWO_63 <= i < TWO_63
  }

  function EncodeInt(i: int): seq<Byte>
    requires IsInt64(i)
  {
    Powers256();
    if i == 0 then [Tag(TYPE_NUMBER, NUMBER_ZERO)]
    else if !(-TWO_31 <= i < TWO_31) then [Tag(TYPE_NUMBER, NUMBER_QWORD)] + LittleEndian(Unsigned(i, 8), 8)
    else if i < 0 then [Tag(TYPE_NUMBER, NUMBER_DWORD)] + LittleEndian(Unsigned(i, 4), 4)
    else if i < 0x100 then [Tag(TYPE_NUMBER, NUMBER_BYTE)] + LittleEndian(i, 1)
    else if i < 0x10000 then [Tag(TYPE_NUMBER, NUMBER_WORD)] + LittleEndian(i, 2)
    else [Tag(TYPE_NUMBER, NUMBER_DWORD)] + LittleEndian(i, 4)
  }

  function StringHead(n: nat): seq<Byte> {
    if n < MAX_COOKIE then [Tag(TYPE_SHORT_STRING, n)]
    else if n < 0x10000 then [Tag(TYPE_LONG_STRING, 2)] + LittleEndian(n, 2)
    else [Tag(TYPE_LONG_STRING, 4)] + LittleEndian(n, 4)
  }

  function TableHead(n: nat): seq<Byte>
    requires n < TWO_31
  {
    if n >= MAX_COOKIE - 1 then [Tag(TYPE_TABLE, MAX_COOKIE - 1)] + EncodeInt(n) else [Tag(TYPE_TABLE, n)]
  }

  /** What the interpreter guarantees of its values, with lengths below 2^31. */
  predicate LuaValue(v: Value)
    decreases v
  {
    match v
    case Int(i) => IsInt64(i)
    case Real(bits) => bits < 2 * TWO_63
    case Ptr(bits) => bits < 2 * TWO_63
    case Str(s) => |s| < TWO_31
    case Table(items, fields) => |items| < TWO_31 && LuaValues(items) && LuaPairs(fields)
    case _ => true
  }

  predicate LuaValues(vs: seq<Value>)
    decreases vs
  {
    vs != [] ==> LuaValue(vs[0]) && LuaValues(vs[1..])
  }

  /** The bits of a double that is not a number. */
  predicate IsNan(bits: nat) {
    bits / 0x10_0000_0000_0000 % 2048 == 2047 && bits % 0x10_0000_0000_0000 != 0
  }

  /** Without the sign, what is beyond infinity. */
  lemma NanBits(bits: nat)
    requires bits < 2 * TWO_63
    ensures IsNan(bits) <==> bits % TWO_63 > 0x7FF0_0000_0000_0000
  {
    var e, f := bits / 0x10_0000_0000_0000, bits % 0x10_0000_0000_0000;
    assert bits == e * 0x10_0000_0000_0000 + f;
    assert TWO_63 == 2048 * 0x10_0000_0000_0000;
  }

  /** What no table has as a key. */
  predicate BadKey(v: Value) {
    v == Nil || (v.Real? && IsNan(v.bits))
  }

  predicate LuaPair(p: Pair)
    decreases p
  {
    !BadKey(p.key) && LuaValue(p.key) && LuaValue(p.val)
  }

  predicate LuaPairs(ps: seq<Pair>)
    decreases ps
  {
    ps != [] ==> LuaPair(ps[0]) && LuaPairs(ps[1..])
  }

  /** Nothing unsupported, and no value deeper than `MAX_DEPTH` below a root at `depth`. */
  predicate Packable(v: Value, depth: nat)
    decreases v
  {
    && depth <= MAX_DEPTH && v != Other
    && (v.Table? ==> AllPackable(v.items, depth + 1) && PairsPackable(v.fields, depth + 1))
  }

  predicate AllPackable(vs: seq<Value>, depth: nat)
    decreases vs
  {
    vs != [] ==> Packable(vs[0], depth) && AllPackable(vs[1..], depth)
  }

  predicate PairPackable(p: Pair, depth: nat)
    decreases p
  {
    Packable(p.key, depth) && Packable(p.val, depth)
  }

  predicate PairsPackable(ps: seq<Pair>, depth: nat)
    decreases ps
  {
    ps != [] ==> PairPackable(ps[0], depth) && PairsPackable(ps[1..], depth)
  }

  function Encode(v: Value): seq<Byte>
    requires LuaValue(v)
    decreases v
  {
    match v
    case Nil => [Tag(TYPE_NIL, 0)]
    case Bool(b) => [Tag(TYPE_BOOLEAN, if b then 1 else 0)]
    case Int(i) => EncodeInt(i)
    case Real(bits) => [Tag(TYPE_NUMBER, NUMBER_REAL)] + LittleEndian(bits, 8)
    case Ptr(bits) => [Tag(TYPE_USERDATA, 0)] + LittleEndian(bits, 8)
    case Str(s) => StringHead(|s|) + s
    case Table(items, fields) => TableHead(|items|) + EncodeAll(items) + (EncodePairs(fields) + [Tag(TYPE_NIL, 0)])
    case Other => []
  }

  function EncodeAll(vs: seq<Value>): seq<Byte>
    requires LuaValues(vs)
    decreases vs
  {
    if vs == [] then [] else Encode(vs[0]) + EncodeAll(vs[1..])
  }

  function EncodePair(p: Pair): seq<Byte>
    requires LuaPair(p)
    decreases p
  {
    Encode(p.key) + Encode(p.val)
  }

  function EncodePairs(ps: seq<Pair>): seq<Byte>
    requires LuaPairs(ps)
    decreases ps
  {
    if ps == [] then [] else EncodePair(ps[0]) + EncodePairs(ps[1..])
  }

  //////////////////////////////////////////////////////////////////////////////
  // Unpacking
  //////////////////////////////////////////////////////////////////////////////

  /** A value and the bytes after it. */
  datatype Parsed<T> = Parsed(value: T, rest: seq<Byte>)

  /** `rb_read`. */
  function Read(s: seq<Byte>, n: nat): (r: Option<Parsed<seq<Byte>>>)
    ensures r.Some? <==> n <= |s|
    ensures r.Some? ==> r.value.value + r.value.rest == s && |r.value.value| == n
  {
    if |s| < n then None else Some(Parsed(s[..n], s[n..]))
  }

  function Shorter<T>(r: Option<Parsed<T>>, s: seq<Byte>): bool {
    r.Some? ==> |r.value.rest| < |s|
  }

  function NumberWidth(cookie: nat): Option<nat> {
    if cookie == NUMBER_ZERO then Some(0)
    else if cookie == NUMBER_BYTE then Some(1)
    else if cookie == NUMBER_WORD then Some(2)
    else if cookie == NUMBER_DWORD then Some(4)
    else if cookie == NUMBER_QWORD then Some(8)
    else None
  }

  function DecodeInt(s: seq<Byte>, cookie: nat): (r: Option<Parsed<int>>)
    ensures r.Some? ==> |r.value.rest| <= |s|
  {
    var width := NumberWidth(cookie);
    if width.None? then None
    else
      var bytes := Read(s, width.value);
      if bytes.None? then None
      else
        var n := FromLittleEndian(bytes.value.value);
        Some(Parsed(if width.value >= 4 then Signed(n, width.value) else n, bytes.value.rest))
  }

  /** The conversion to a 32-bit `int`. */
  function ToInt32(i: int): int {
    (i + TWO_31) % (2 * TWO_31) - TWO_31
  }

  /** A string of `n` bytes; making one of a negative length raises an error. */
  function DecodeBytes(s: seq<Byte>, n: int): (r: Option<Parsed<Value>>)
    ensures r.Some? ==> |r.value.rest| <= |s|
  {
    if n < 0 then None
    else
      var bytes := Read(s, n);
      if bytes.None? then None else Some(Parsed(Str(bytes.value.value), bytes.value.rest))
  }

  /** A string whose length is in the next `width` bytes, taken as an `int`. */
  function DecodeLong(s: seq<Byte>, width: nat): (r: Option<Parsed<Value>>)
    ensures r.Some? ==> |r.value.rest| <= |s|
  {
    var bytes := Read(s, width);
    if bytes.None? then None
    else
      DecodeBytes(bytes.value.rest, ToInt32(FromLittleEndian(bytes.value.value)))
  }

  function DecodeEight(s: seq<Byte>): (r: Option<Parsed<nat>>)
    ensures r.Some? ==> |r.value.rest| <= |s|
  {
    var bytes := Read(s, 8);
    if bytes.None? then None else Some(Parsed(FromLittleEndian(bytes.value.value), bytes.value.rest))
  }

  /** The size of the array part, which a full cookie says is in a number of its own. */
  function DecodeSize(s: seq<Byte>, cookie: nat): (r: Option<Parsed<int>>)
    ensures r.Some? ==> |r.value.rest| <= |s|
  {
    if cookie != MAX_COOKIE - 1 then Some(Parsed(cookie, s))
    else if s == [] || s[0] % 8 != TYPE_NUMBER || s[0] / 8 == NUMBER_REAL then None
    else
      var n := DecodeInt(s[1..], s[0] / 8);
      if n.None? then None else Some(Parsed(ToInt32(n.value.value), n.value.rest))
  }

  function Decode(s: seq<Byte>): (r: Option<Parsed<Value>>)
    ensures Shorter(r, s)
    decreases |s|, 0
  {
    if s == [] then None else DecodeTagged(s[1..], s[0] % 8, s[0] / 8)
  }

  function DecodeTagged(s: seq<Byte>, tag: nat, cookie: nat): (r: Option<Parsed<Value>>)
    ensures r.Some? ==> |r.value.rest| <= |s|
    decreases |s|, 2
  {
    if tag == TYPE_NIL then Some(Parsed(Nil, s))
    else if tag == TYPE_BOOLEAN then Some(Parsed(Bool(cookie != 0), s))
    else if tag == TYPE_NUMBER && cookie == NUMBER_REAL then
      var n := DecodeEight(s);
      if n.None? then None else Some(Parsed(Real(n.value.value), n.value.rest))
    else if tag == TYPE_NUMBER then
      var n := DecodeInt(s, cookie);
      if n.None? then None else Some(Parsed(Int(n.value.value), n.value.rest))
    else if tag == TYPE_USERDATA then
      var n := DecodeEight(s);
      if n.None? then None else Some(Parsed(Ptr(n.value.value), n.value.rest))
    else if tag == TYPE_SHORT_STRING then DecodeBytes(s, cookie)
    else if tag == TYPE_LONG_STRING then
      if cookie == 2 || cookie == 4 then DecodeLong(s, cookie) else None
    else if tag == TYPE_TABLE then DecodeTable(s, cookie)
    else None
  }

  function DecodeTable(s: seq<Byte>, cookie: nat): (r: Option<Parsed<Value>>)
    ensures r.Some? ==> |r.value.rest| <= |s|
    decreases |s|, 1, 2
  {
    var size := DecodeSize(s, cookie);
    if size.None? then None
    else
      var items := DecodeArray(size.value.rest, size.value.value);
      if items.None? then None
      else
        var fields := DecodePairs(items.value.rest);
        if fields.None? then None
        else Some(Parsed(Table(items.value.value, fields.value.value), fields.value.rest))
  }

  function DecodeArray(s: seq<Byte>, n: int): (r: Option<Parsed<seq<Value>>>)
    ensures r.Some? ==> |r.value.rest| <= |s|
    decreases |s|, 1, 1
  {
    if n <= 0 then Some(Parsed([], s))
    else
      var v := Decode(s);
      if v.None? then None
      else
        var more := DecodeArray(v.value.rest, n - 1);
        if more.None? then None else Some(Parsed([v.value.value] + more.value.value, more.value.rest))
  }

  /** Fields up to a nil key; setting a field whose key is not a number raises an error. */
  function DecodePairs(s: seq<Byte>): (r: Option<Parsed<seq<Pair>>>)
    ensures Shorter(r, s)
    decreases |s|, 1, 0
  {
    var key := Decode(s);
    if key.None? then None
    else if key.value.value == Nil then Some(Parsed([], key.value.rest))
    else
      var val := Decode(key.value.rest);
      if val.None? || BadKey(key.value.value) then None
      else
        var more := DecodePairs(val.value.rest);
        if more.None? then None
        else Some(Parsed([Pair(key.value.value, val.value.value)] + more.value.value, more.value.rest))
  }

  /** `luaseri_unpack`: values until the bytes run out. */
  function Unpack(s: seq<Byte>): Option<seq<Value>>
    decreases |s|
  {
    if s == [] then Some([])
    else
      var v := Decode(s);
      if v.None? then None
      else
        var more := Unpack(v.value.rest);
        if more.None? then None else Some([v.value.value] + more.value)
  }

  //////////////////////////////////////////////////////////////////////////////
  // Round trip
  //////////////////////////////////////////////////////////////////////////////

  lemma ReadFront(a: seq<Byte>, rest: seq<Byte>)
    ensures Read(a + rest, |a|) == Some(Parsed(a, rest))
  {
    assert (a + rest)[..|a|] == a && (a + rest)[|a|..] == rest;
  }

  /** A number behind its tag. */
  lemma IntRoundTrip(i: int, rest: seq<Byte>)
    requires IsInt64(i)
    ensures var e := EncodeInt(i);
      e != [] && e[0] % 8 == TYPE_NUMBER && e[0] / 8 != NUMBER_REAL
      && DecodeInt(e[1..] + rest, e[0] / 8) == Some(Parsed(i, rest))
  {
    Powers256();
    hide LittleEndian, FromLittleEndian, Power256, Read;
    var e := EncodeInt(i);
    var cookie := e[0] / 8;
    var k := NumberWidth(cookie).value;
    var n := if k >= 4 then Unsigned(i, k) else i;
    assert e[1..] == LittleEndian(n, k);
    ReadFront(LittleEndian(n, k), rest);
    LittleEndianInverse(n, k);
  }

  lemma EightRoundTrip(bits: nat, rest: seq<Byte>)
    requires bits < 2 * TWO_63
    ensures DecodeEight(LittleEndian(bits, 8) + rest) == Some(Parsed(bits, rest))
  {
    Powers256();
    ReadFront(LittleEndian(bits, 8), rest);
    LittleEndianInverse(bits, 8);
  }

  /** A string: its head says how long it is. */
  lemma StringRoundTrip(str: seq<Byte>, rest: seq<Byte>)
    requires |str| < TWO_31
    ensures var e := StringHead(|str|) + str; Decode(e + rest) == Some(Parsed(Str(str), rest))
  {
    hide LittleEndian, FromLittleEndian, Read;
    Powers256();
    hide Power256;
    var n, head := |str|, StringHead(|str|);
    var e := head + str;
    assert e[0] == head[0];
    ReadFront(str, rest);
    if n < MAX_COOKIE {
      assert (e + rest)[1..] == str + rest;
    } else {
      var k := head[0] / 8;
      assert (e + rest)[1..] == LittleEndian(n, k) + (str + rest);
      ReadFront(LittleEndian(n, k), str + rest);
      LittleEndianInverse(n, k);
    }
  }

  lemma SizeRoundTrip(n: nat, rest: seq<Byte>)
    requires n < TWO_31
    ensures var h := TableHead(n);
      h[0] % 8 == TYPE_TABLE && DecodeSize(h[1..] + rest, h[0] / 8) == Some(Parsed(n, rest))
  {
    hide EncodeInt, DecodeInt;
    IntRoundTrip(n, rest);
    if n >= MAX_COOKIE - 1 {
      var e := EncodeInt(n);
      var s := TableHead(n)[1..] + rest;
      assert s == e + rest && s[1..] == e[1..] + rest && s[0] == e[0];
    } else {
      assert TableHead(n)[1..] + rest == rest;
    }
  }

  /** Unpacking what was packed gives the value back and stops exactly behind it. */
  lemma {:induction false} RoundTrip(v: Value, depth: nat, rest: seq<Byte>)
    requires LuaValue(v) && Packable(v, depth)
    ensures Decode(Encode(v) + rest) == Some(Parsed(v, rest))
    decreases v, 1
  {
    match v
    case Nil =>
    case Bool(_) =>
    case Int(i) =>
      IntRoundTrip(i, rest);
      var e := EncodeInt(i);
      assert (e + rest)[1..] == e[1..] + rest;
    case Real(bits) =>
      EightRoundTrip(bits, rest);
      TagFront(TYPE_NUMBER, NUMBER_REAL, LittleEndian(bits, 8), rest);
    case Ptr(bits) =>
      EightRoundTrip(bits, rest);
      TagFront(TYPE_USERDATA, 0, LittleEndian(bits, 8), rest);
    case Str(str) => StringRoundTrip(str, rest);
    case Table(items, fields) => TableRoundTrip(v, depth, rest);
  }

  lemma TagFront(t: nat, cookie: nat, body: seq<Byte>, rest: seq<Byte>)
    requires t < 8 && cookie < 32
    ensures var s := [Tag(t, cookie)] + body + rest;
      Decode(s) == DecodeTagged(body + rest, t, cookie)
  {
    var s := [Tag(t, cookie)] + body + rest;
    assert s[1..] == body + rest;
  }

  lemma {:induction false} TableRoundTrip(v: Value, depth: nat, rest: seq<Byte>)
    requires v.Table? && LuaValue(v) && Packable(v, depth)
    ensures Decode(Encode(v) + rest) == Some(Parsed(v, rest))
    decreases v, 0
  {
    var head, items, tail := TableHead(|v.items|), EncodeAll(v.items), EncodePairs(v.fields) + [Tag(TYPE_NIL, 0)];
    AllRoundTrip(v.items, depth + 1, tail + rest);
    PairsRoundTrip(v.fields, depth + 1, rest);
    SizeRoundTrip(|v.items|, items + (tail + rest));
    assert Encode(v) == head + items + tail;
    hide *;
    TableParts(v, head, items, tail, rest);
  }

  /** The three parts of a table are read one after the other. */
  lemma TableParts(v: Value, head: seq<Byte>, items: seq<Byte>, tail: seq<Byte>, rest: seq<Byte>)
    requires v.Table? && head != [] && head[0] % 8 == TYPE_TABLE
    requires DecodeSize(head[1..] + (items + (tail + rest)), head[0] / 8) == Some(Parsed(|v.items|, items + (tail + rest)))
    requires DecodeArray(items + (tail + rest), |v.items|) == Some(Parsed(v.items, tail + rest))
    requires DecodePairs(tail + rest) == Some(Parsed(v.fields, rest))
    ensures Decode(head + items + tail + rest) == Some(Parsed(v, rest))
  {
    hide DecodeSize, DecodeArray, DecodePairs;
    var s := head + items + tail + rest;
    var t, cookie := s[1..], head[0] / 8;
    assert s[0] == head[0] && t == head[1..] + (items + (tail + rest));
    assert DecodeTable(t, cookie) == Some(Parsed(Table(v.items, v.fields), rest));
    assert DecodeTagged(t, TYPE_TABLE, cookie) == DecodeTable(t, cookie);
  }

  lemma {:induction false} AllRoundTrip(vs: seq<Value>, depth: nat, rest: seq<Byte>)
    requires LuaValues(vs) && AllPackable(vs, depth)
    ensures DecodeArray(EncodeAll(vs) + rest, |vs|) == Some(Parsed(vs, rest))
    decreases vs
  {
    if vs == [] {
      assert EncodeAll(vs) + rest == rest;
    } else {
      hide *;
      var v, tail := vs[0], vs[1..];
      AllSplit(vs, depth);
      Associate(Encode(v), EncodeAll(tail), rest);
      RoundTrip(v, depth, EncodeAll(tail) + rest);
      AllRoundTrip(tail, depth, rest);
      AllStep(v, tail, Encode(v) + (EncodeAll(tail) + rest), EncodeAll(tail) + rest, rest);
    }
  }

  lemma Associate(a: seq<Byte>, b: seq<Byte>, c: seq<Byte>)
    ensures (a + b) + c == a + (b + c)
  {
  }

  lemma AllSplit(vs: seq<Value>, depth: nat)
    requires vs != [] && LuaValues(vs) && AllPackable(vs, depth)
    ensures LuaValue(vs[0]) && LuaValues(vs[1..]) && Packable(vs[0], depth) && AllPackable(vs[1..], depth)
    ensures vs == [vs[0]] + vs[1..] && EncodeAll(vs) == Encode(vs[0]) + EncodeAll(vs[1..])
  {
  }

  lemma AllStep(v: Value, vs: seq<Value>, s: seq<Byte>, more: seq<Byte>, rest: seq<Byte>)
    requires Decode(s) == Some(Parsed(v, more)) && DecodeArray(more, |vs|) == Some(Parsed(vs, rest))
    ensures DecodeArray(s, |[v] + vs|) == Some(Parsed([v] + vs, rest))
  {
    hide Decode;
    assert |[v] + vs| == 1 + |vs|;
  }

  lemma {:induction false} PairRoundTrip(p: Pair, depth: nat, rest: seq<Byte>)
    requires LuaPair(p) && PairPackable(p, depth)
    ensures Decode(EncodePair(p) + rest) == Some(Parsed(p.key, Encode(p.val) + rest))
    ensures Decode(Encode(p.val) + rest) == Some(Parsed(p.val, rest))
    decreases p
  {
    RoundTrip(p.key, depth, Encode(p.val) + rest);
    RoundTrip(p.val, depth, rest);
    assert EncodePair(p) + rest == Encode(p.key) + (Encode(p.val) + rest);
  }

  lemma {:induction false} PairsRoundTrip(ps: seq<Pair>, depth: nat, rest: seq<Byte>)
    requires LuaPairs(ps) && PairsPackable(ps, depth)
    ensures DecodePairs(EncodePairs(ps) + [Tag(TYPE_NIL, 0)] + rest) == Some(Parsed(ps, rest))
    decreases ps
  {
    var end := [Tag(TYPE_NIL, 0)];
    hide *;
    if ps == [] {
      PairsEnd(rest);
      Regroup([], [], end, rest);
    } else {
      var p, tail := ps[0], ps[1..];
      PairsSplit(ps, depth);
      var more := EncodePairs(tail) + end + rest;
      PairRoundTrip(p, depth, more);
      PairsRoundTrip(tail, depth, rest);
      Regroup(EncodePair(p), EncodePairs(tail), end, rest);
      PairsStep(p, tail, EncodePair(p) + more, Encode(p.val) + more, more, rest);
    }
  }

  lemma Regroup(a: seq<Byte>, b: seq<Byte>, c: seq<Byte>, d: seq<Byte>)
    ensures (a + b) + c + d == a + (b + c + d) && [] + c + d == c + d
  {
    assert (a + b) + c + d == a + (b + c + d);
    assert [] + c == c;
  }

  lemma PairsEnd(rest: seq<Byte>)
    ensures EncodePairs([]) == [] && DecodePairs([Tag(TYPE_NIL, 0)] + rest) == Some(Parsed([], rest))
  {
    var s := [Tag(TYPE_NIL, 0)] + rest;
    assert s[0] == Tag(TYPE_NIL, 0) && s[1..] == rest;
    assert Decode(s) == Some(Parsed(Nil, rest));
  }

  lemma PairsSplit(ps: seq<Pair>, depth: nat)
    requires ps != [] && LuaPairs(ps) && PairsPackable(ps, depth)
    ensures LuaPair(ps[0]) && LuaPairs(ps[1..]) && PairPackable(ps[0], depth) && PairsPackable(ps[1..], depth)
    ensures ps == [ps[0]] + ps[1..] && !BadKey(ps[0].key) && LuaValue(ps[0].val)
    ensures EncodePairs(ps) == EncodePair(ps[0]) + EncodePairs(ps[1..])
  {
  }

  lemma PairsStep(p: Pair, ps: seq<Pair>, s: seq<Byte>, mid: seq<Byte>, more: seq<Byte>, rest: seq<Byte>)
    requires !BadKey(p.key) && Decode(s) == Some(Parsed(p.key, mid)) && Decode(mid) == Some(Parsed(p.val, more))
    requires DecodePairs(more) == Some(Parsed(ps, rest))
    ensures DecodePairs(s) == Some(Parsed([p] + ps, rest))
  {
    hide Decode;
  }

  /** `luaseri_unpack` after `luaseri_pack`. */
  lemma {:induction false} UnpackPack(vs: seq<Value>)
    requires LuaValues(vs) && AllPackable(vs, 0)
    ensures Unpack(EncodeAll(vs)) == Some(vs)
    decreases vs
  {
    if vs != [] {
      RoundTrip(vs[0], 0, EncodeAll(vs[1..]));
      UnpackPack(vs[1..]);
      assert Decode([]) == None;
      assert vs == [vs[0]] + vs[1..];
    }
  }

  /** No encoding is the beginning of another. */
  lemma SelfDelimiting(v: Value, w: Value, restV: seq<Byte>, restW: seq<Byte>)
    requires LuaValue(v) && LuaValue(w) && Packable(v, 0) && Packable(w, 0)
    requires Encode(v) + restV == Encode(w) + restW
    ensures v == w && restV == restW
  {
    RoundTrip(v, 0, restV);
    RoundTrip(w, 0, restW);
  }

  //////////////////////////////////////////////////////////////////////////////
  // The shortest encoding
  //////////////////////////////////////////////////////////////////////////////

  /** A number takes the shortest of the five integer forms. */
  lemma IntShortest(s: seq<Byte>, cookie: nat)
    requires DecodeInt(s, cookie).Some?
    ensures var r := DecodeInt(s, cookie).value;
      IsInt64(r.value) && |EncodeInt(r.value)| + |r.rest| <= 1 + |s|
  {
    Powers256();
    var k := NumberWidth(cookie).value;
    FromLittleEndianBound(s[..k]);
    assert FromLittleEndian([]) == 0;
    hide FromLittleEndian, Power256, LittleEndian;
  }

  /** A string takes the shortest head. */
  lemma StringShortest(s: seq<Byte>, tag: nat, cookie: nat)
    requires (tag == TYPE_SHORT_STRING && cookie < MAX_COOKIE) || tag == TYPE_LONG_STRING
    requires DecodeTagged(s, tag, cookie).Some?
    ensures var r := DecodeTagged(s, tag, cookie).value;
      && r.value.Str? && |r.value.s| < TWO_31
      && |StringHead(|r.value.s|)| + |r.value.s| + |r.rest| <= 1 + |s|
  {
    Powers256();
    if tag == TYPE_LONG_STRING {
      FromLittleEndianBound(s[..cookie]);
    }
    hide FromLittleEndian, Power256, LittleEndian;
  }

  /** A table takes the shortest head. */
  lemma SizeShortest(s: seq<Byte>, cookie: nat)
    requires cookie < MAX_COOKIE && DecodeSize(s, cookie).Some?
    ensures var r := DecodeSize(s, cookie).value;
      r.value < TWO_31 && |TableHead(if r.value < 0 then 0 else r.value)| + |r.rest| <= 1 + |s|
  {
    if cookie == MAX_COOKIE - 1 {
      IntShortest(s[1..], s[0] / 8);
      var i := DecodeInt(s[1..], s[0] / 8).value.value;
      if ToInt32(i) >= 0 {
        IntNoLonger(i);
      }
      hide DecodeInt, EncodeInt;
    }
  }

  lemma IntNoLonger(i: int)
    requires IsInt64(i) && ToInt32(i) >= 0
    ensures |EncodeInt(ToInt32(i))| <= |EncodeInt(i)|
  {
    hide LittleEndian, Power256;
  }

  /** Whatever bytes unpack to a value, packing the value takes no more of them. */
  lemma {:induction false} Shortest(s: seq<Byte>)
    requires Decode(s).Some?
    ensures var r := Decode(s).value; LuaValue(r.value) && |Encode(r.value)| + |r.rest| <= |s|
    decreases |s|, 0
  {
    var tag, cookie := s[0] % 8, s[0] / 8;
    TaggedShortest(s[1..], tag, cookie);
  }

  lemma {:induction false} TaggedShortest(s: seq<Byte>, tag: nat, cookie: nat)
    requires tag < 8 && cookie < MAX_COOKIE && DecodeTagged(s, tag, cookie).Some?
    ensures var r := DecodeTagged(s, tag, cookie).value; LuaValue(r.value) && |Encode(r.value)| + |r.rest| <= 1 + |s|
    decreases |s|, 2
  {
    if tag == TYPE_NUMBER && cookie != NUMBER_REAL {
      IntShortest(s, cookie);
    } else if tag == TYPE_NUMBER || tag == TYPE_USERDATA {
      Powers256();
      FromLittleEndianBound(s[..8]);
    } else if tag == TYPE_SHORT_STRING || tag == TYPE_LONG_STRING {
      StringShortest(s, tag, cookie);
    } else if tag == TYPE_TABLE {
      TableShortest(s, cookie);
    }
  }

  lemma {:induction false} TableShortest(s: seq<Byte>, cookie: nat)
    requires cookie < MAX_COOKIE && DecodeTable(s, cookie).Some?
    ensures var r := DecodeTable(s, cookie).value; LuaValue(r.value) && |Encode(r.value)| + |r.rest| <= 1 + |s|
    decreases |s|, 1, 2
  {
    var size := DecodeSize(s, cookie).value;
    SizeShortest(s, cookie);
    ArrayShortest(size.rest, size.value);
    var items := DecodeArray(size.rest, size.value).value;
    PairsShortest(items.rest);
    hide TableHead, DecodeSize, DecodeArray, DecodePairs, EncodeAll, EncodePairs;
  }

  lemma {:induction false} ArrayShortest(s: seq<Byte>, n: int)
    requires DecodeArray(s, n).Some?
    ensures var r := DecodeArray(s, n).value;
      && |r.value| == (if n < 0 then 0 else n) && LuaValues(r.value)
      && |EncodeAll(r.value)| + |r.rest| <= |s|
    decreases |s|, 1, 1
  {
    if n > 0 {
      var v := Decode(s).value;
      Shortest(s);
      ArrayShortest(v.rest, n - 1);
      var more := DecodeArray(v.rest, n - 1).value;
      assert ([v.value] + more.value)[1..] == more.value;
      hide Decode, Encode, LuaValue;
    }
  }

  lemma {:induction false} PairsShortest(s: seq<Byte>)
    requires DecodePairs(s).Some?
    ensures var r := DecodePairs(s).value; LuaPairs(r.value) && |EncodePairs(r.value)| + 1 + |r.rest| <= |s|
    decreases |s|, 1, 0
  {
    var key := Decode(s).value;
    Shortest(s);
    if key.value != Nil {
      var val := Decode(key.rest).value;
      Shortest(key.rest);
      PairsShortest(val.rest);
      var more := DecodePairs(val.rest).value;
      var p := Pair(key.value, val.value);
      assert ([p] + more.value)[1..] == more.value;
      hide Decode, Encode, LuaValue;
    }
  }

  /** The packed form of a value is among the shortest byte strings that unpack to it. */
  lemma EncodeIsShortest(v: Value, s: seq<Byte>)
    requires LuaValue(v) && Packable(v, 0) && Decode(s) == Some(Parsed(v, []))
    ensures Decode(Encode(v)) == Some(Parsed(v, [])) && |Encode(v)| <= |s|
  {
    RoundTrip(v, 0, []);
    assert Encode(v) + [] == Encode(v);
    Shortest(s);
  }

  /** The bytes that no length fixes: the first byte of every form, and the end of a table. */
  lemma WireHeads(v: Value)
    requires LuaValue(v) && v != Other
    ensures Encode(v) != []
    ensures var b := Encode(v)[0];
      match v
      case Nil => Encode(v) == [0]
      case Bool(x) => Encode(v) == [if x then 9 else 1]
      case Int(_) => b in {2, 10, 18, 34, 50}
      case Real(_) => b == 66
      case Ptr(_) => b == 3
      case Str(s) => b == if |s| < 32 then 4 + 8 * |s| else if |s| < 65536 then 21 else 37
      case Table(items, _) => b == (if |items| < 31 then 6 + 8 * |items| else 254) && Encode(v)[|Encode(v)| - 1] == 0
      case Other => true
  {
    hide LittleEndian, EncodeAll, EncodePairs;
  }

  //////////////////////////////////////////////////////////////////////////////
  // The block chain
  //////////////////////////////////////////////////////////////////////////////

  const BLOCK_SIZE: nat := 128

  class WriteBlock {
    var blocks: seq<array<Byte>>
    var len: nat
    var ptr: nat
    /** Everything pushed so far. */
    ghost var bytes: seq<Byte>

    ghost predicate Shape()
      reads this
    {
      && blocks != [] && ptr <= 128 && len == 128 * (|blocks| - 1) + ptr && len == |bytes|
      && (forall i | 0 <= i < |blocks| :: blocks[i].Length == 128)
      && (forall i, j | 0 <= i < j < |blocks| :: blocks[i] != blocks[j])
    }

    ghost predicate Valid()
      reads this, blocks
    {
      && Shape()
      && (forall i: nat, j: nat | i < |blocks| && j < 128 && i * 128 + j < len ::
            blocks[i][j] == bytes[i * 128 + j])
    }

    constructor ()
      ensures Valid() && bytes == [] && fresh(blocks)
    {
      var first := new Byte[BLOCK_SIZE](_ => 0);
      blocks, len, ptr, bytes := [first], 0, 0, [];
    }

    /** Appends an empty block to a full chain. */
    method NewBlock()
      requires Valid() && ptr == BLOCK_SIZE
      modifies this
      ensures Valid() && bytes == old(bytes) && ptr == 0
      ensures |blocks| == |old(blocks)| + 1 && blocks[..|old(blocks)|] == old(blocks) && fresh(blocks[|old(blocks)|])
    {
      var next := new Byte[BLOCK_SIZE](_ => 0);
      blocks := blocks + [next];
      ptr := 0;
    }

    /** Copies into the current block, which has room. */
    method Fill(buf: seq<Byte>)
      requires Valid() && ptr + |buf| <= BLOCK_SIZE
      modifies `len, `ptr, `bytes, blocks[|blocks| - 1]
      ensures Valid() && bytes == old(bytes) + buf && ptr == old(ptr) + |buf|
    {
      var current := blocks[|blocks| - 1];
      ghost var last, p, before := |blocks| - 1, ptr, current[..];
      forall j | 0 <= j < |buf| {
        current[ptr + j] := buf[j];
      }
      ptr := ptr + |buf|;
      len := len + |buf|;
      bytes := bytes + buf;
      forall i: nat, j: nat | i < |blocks| && j < 128 && i * 128 + j < len
        ensures blocks[i][j] == bytes[i * 128 + j]
      {
        if i == last && j >= p {
          assert current[p + (j - p)] == buf[j - p];
        } else if i == last {
          assert current[j] == before[j];
        }
      }
    }

    /** `wb_push`: copies what fits, and goes on in a new block. */
    method Push(buf: seq<Byte>)
      requires Valid()
      modifies this, blocks
      ensures Valid() && bytes == old(bytes) + buf
      ensures forall i | 0 <= i < |blocks| :: blocks[i] in old(blocks) || fresh(blocks[i])
    {
      var rest := buf;
      if ptr == BLOCK_SIZE {
        NewBlock();
      }
      while !(ptr <= BLOCK_SIZE - |rest|)
        invariant Valid() && ptr < BLOCK_SIZE && bytes + rest == old(bytes) + buf
        invariant forall i | 0 <= i < |blocks| :: blocks[i] in old(blocks) || fresh(blocks[i])
        decreases |rest|
      {
        var copy := BLOCK_SIZE - ptr;
        Fill(rest[..copy]);
        assert bytes + rest[copy..] == old(bytes) + buf by {
          assert rest == rest[..copy] + rest[copy..];
        }
        rest := rest[copy..];
        NewBlock();
      }
      Fill(rest);
    }

    /** `seri`: the chain copied into one buffer. */
    method Flatten() returns (buffer: array<Byte>)
      requires Valid()
      ensures fresh(buffer) && buffer[..] == bytes
    {
      buffer := new Byte[len](_ => 0);
      var b, p, left := 0, 0, len;
      while left > 0
        invariant fresh(buffer) && buffer.Length == len && Valid() && bytes == old(bytes) && blocks == old(blocks)
        invariant 0 <= left && left + p == len && p == b * 128 && (left > 0 ==> b < |blocks|)
        invariant forall i | 0 <= i < p :: buffer[i] == bytes[i]
        decreases left
      {
        if left >= BLOCK_SIZE {
          CopyBlock(buffer, p, b, BLOCK_SIZE);
          p := p + BLOCK_SIZE;
          left := left - BLOCK_SIZE;
          b := b + 1;
        } else {
          CopyBlock(buffer, p, b, left);
          break;
        }
      }
      assert forall i | 0 <= i < len :: buffer[i] == bytes[i];
    }

    method CopyBlock(buffer: array<Byte>, p: nat, b: nat, n: nat)
      requires Valid() && buffer !in blocks && b < |blocks| && p == b * 128 && n <= 128 && p + n <= len == buffer.Length
      requires forall i | 0 <= i < p :: buffer[i] == bytes[i]
      modifies buffer
      ensures forall i | 0 <= i < p + n :: buffer[i] == bytes[i]
    {
      var block := blocks[b];
      forall j | 0 <= j < n {
        buffer[p + j] := block[j];
      }
      forall i | 0 <= i < p + n ensures buffer[i] == bytes[i] {
        if i >= p {
          assert buffer[p + (i - p)] == block[i - p] == bytes[b * 128 + (i - p)];
        }
      }
    }
  }

  //////////////////////////////////////////////////////////////////////////////
  // pack_one
  //////////////////////////////////////////////////////////////////////////////

  method WbInteger(wb: WriteBlock, i: int)
    requires wb.Valid() && IsInt64(i)
    modifies wb, wb.blocks
    ensures wb.Valid() && wb.bytes == old(wb.bytes) + EncodeInt(i)
    ensures forall k | 0 <= k < |wb.blocks| :: wb.blocks[k] in old(wb.blocks) || fresh(wb.blocks[k])
  {
    Powers256();
    hide Power256, LittleEndian;
    if i == 0 {
      wb.Push([Tag(TYPE_NUMBER, NUMBER_ZERO)]);
    } else if !(-TWO_31 <= i < TWO_31) {
      wb.Push([Tag(TYPE_NUMBER, NUMBER_QWORD)]);
      wb.Push(LittleEndian(Unsigned(i, 8), 8));
    } else if i < 0 {
      wb.Push([Tag(TYPE_NUMBER, NUMBER_DWORD)]);
      wb.Push(LittleEndian(Unsigned(i, 4), 4));
    } else if i < 0x100 {
      wb.Push([Tag(TYPE_NUMBER, NUMBER_BYTE)]);
      wb.Push(LittleEndian(i, 1));
    } else if i < 0x10000 {
      wb.Push([Tag(TYPE_NUMBER, NUMBER_WORD)]);
      wb.Push(LittleEndian(i, 2));
    } else {
      wb.Push([Tag(TYPE_NUMBER, NUMBER_DWORD)]);
      wb.Push(LittleEndian(i, 4));
    }
  }

  method WbString(wb: WriteBlock, str: seq<Byte>)
    requires wb.Valid() && |str| < TWO_31
    modifies wb, wb.blocks
    ensures wb.Valid() && wb.bytes == old(wb.bytes) + (StringHead(|str|) + str)
    ensures forall k | 0 <= k < |wb.blocks| :: wb.blocks[k] in old(wb.blocks) || fresh(wb.blocks[k])
  {
    hide LittleEndian, WriteBlock.Valid;
    var n := |str|;
    if n < MAX_COOKIE {
      wb.Push([Tag(TYPE_SHORT_STRING, n)]);
      if n > 0 {
        wb.Push(str);
      }
    } else {
      if n < 0x10000 {
        wb.Push([Tag(TYPE_LONG_STRING, 2)]);
        wb.Push(LittleEndian(n, 2));
      } else {
        wb.Push([Tag(TYPE_LONG_STRING, 4)]);
        wb.Push(LittleEndian(n, 4));
      }
      wb.Push(str);
    }
    assert wb.bytes == old(wb.bytes) + (StringHead(n) + str);
  }

  /** Packs one value, or stops at a table too deep or a type that cannot be packed. */
  method PackOne(wb: WriteBlock, v: Value, depth: nat) returns (ok: bool)
    requires wb.Valid() && LuaValue(v)
    modifies wb, wb.blocks
    ensures wb.Valid() && (ok <==> Packable(v, depth))
    ensures ok ==> wb.bytes == old(wb.bytes) + Encode(v)
    ensures forall k | 0 <= k < |wb.blocks| :: wb.blocks[k] in old(wb.blocks) || fresh(wb.blocks[k])
    decreases v, 1
  {
    hide LittleEndian, EncodeAll, EncodePairs, LuaValues, LuaPairs, AllPackable, PairsPackable, EncodeInt, StringHead;
    if depth > MAX_DEPTH {
      return false;
    }
    match v {
      case Nil => wb.Push([Tag(TYPE_NIL, 0)]);
      case Bool(b) => wb.Push([Tag(TYPE_BOOLEAN, if b then 1 else 0)]);
      case Int(i) => WbInteger(wb, i);
      case Real(bits) =>
        wb.Push([Tag(TYPE_NUMBER, NUMBER_REAL)]);
        wb.Push(LittleEndian(bits, 8));
      case Ptr(bits) =>
        wb.Push([Tag(TYPE_USERDATA, 0)]);
        wb.Push(LittleEndian(bits, 8));
      case Str(str) => WbString(wb, str);
      case Table(_, _) =>
        ok := WbTable(wb, v, depth + 1);
        return;
      case Other => return false;
    }
    return true;
  }

  method WbTable(wb: WriteBlock, v: Value, depth: nat) returns (ok: bool)
    requires wb.Valid() && v.Table? && LuaValue(v)
    modifies wb, wb.blocks
    ensures wb.Valid() && (ok <==> AllPackable(v.items, depth) && PairsPackable(v.fields, depth))
    ensures ok ==> wb.bytes == old(wb.bytes) + Encode(v)
    ensures forall k | 0 <= k < |wb.blocks| :: wb.blocks[k] in old(wb.blocks) || fresh(wb.blocks[k])
    decreases v, 0
  {
    hide EncodeAll, EncodePairs, LuaValues, LuaPairs, AllPackable, PairsPackable, EncodeInt;
    ghost var head, items, tail := TableHead(|v.items|), EncodeAll(v.items), EncodePairs(v.fields) + [Tag(TYPE_NIL, 0)];
    Regroup(wb.bytes, head, items, tail);
    assert Encode(v) == head + items + tail;
    hide Encode, LuaValue;
    WbTableHead(wb, |v.items|);
    ok := WbTableArray(wb, v, depth);
    if !ok {
      return;
    }
    ok := WbTableHash(wb, v, depth);
  }

  method WbTableHead(wb: WriteBlock, n: nat)
    requires wb.Valid() && n < TWO_31
    modifies wb, wb.blocks
    ensures wb.Valid() && wb.bytes == old(wb.bytes) + TableHead(n)
    ensures forall k | 0 <= k < |wb.blocks| :: wb.blocks[k] in old(wb.blocks) || fresh(wb.blocks[k])
  {
    hide EncodeInt;
    if n >= MAX_COOKIE - 1 {
      wb.Push([Tag(TYPE_TABLE, MAX_COOKIE - 1)]);
      WbInteger(wb, n);
    } else {
      wb.Push([Tag(TYPE_TABLE, n)]);
    }
  }

  method WbTableArray(wb: WriteBlock, v: Value, depth: nat) returns (ok: bool)
    requires wb.Valid() && v.Table? && LuaValues(v.items)
    modifies wb, wb.blocks
    ensures wb.Valid() && (ok <==> AllPackable(v.items, depth))
    ensures ok ==> wb.bytes == old(wb.bytes) + EncodeAll(v.items)
    ensures forall k | 0 <= k < |wb.blocks| :: wb.blocks[k] in old(wb.blocks) || fresh(wb.blocks[k])
    decreases v, -1
  {
    hide Encode, LuaValue, Packable;
    var i := 0;
    assert v.items[0..] == v.items;
    while i < |v.items|
      invariant i <= |v.items| && wb.Valid() && LuaValues(v.items[i..])
      invariant AllPackable(v.items, depth) <==> AllPackable(v.items[i..], depth)
      invariant wb.bytes + EncodeAll(v.items[i..]) == old(wb.bytes) + EncodeAll(v.items)
      invariant forall k | 0 <= k < |wb.blocks| :: wb.blocks[k] in old(wb.blocks) || fresh(wb.blocks[k])
    {
      ghost var s := v.items[i..];
      assert s[0] == v.items[i] && s[1..] == v.items[i + 1..];
      ok := PackOne(wb, v.items[i], depth);
      if !ok {
        return;
      }
      i := i + 1;
    }
    return true;
  }

  method WbTableHash(wb: WriteBlock, v: Value, depth: nat) returns (ok: bool)
    requires wb.Valid() && v.Table? && LuaPairs(v.fields)
    modifies wb, wb.blocks
    ensures wb.Valid() && (ok <==> PairsPackable(v.fields, depth))
    ensures ok ==> wb.bytes == old(wb.bytes) + (EncodePairs(v.fields) + [Tag(TYPE_NIL, 0)])
    ensures forall k | 0 <= k < |wb.blocks| :: wb.blocks[k] in old(wb.blocks) || fresh(wb.blocks[k])
    decreases v, -1
  {
    hide EncodePair, LuaPair, PairPackable;
    var i := 0;
    assert v.fields[0..] == v.fields;
    while i < |v.fields|
      invariant i <= |v.fields| && wb.Valid() && LuaPairs(v.fields[i..])
      invariant PairsPackable(v.fields, depth) <==> PairsPackable(v.fields[i..], depth)
      invariant wb.bytes + EncodePairs(v.fields[i..]) == old(wb.bytes) + EncodePairs(v.fields)
      invariant forall k | 0 <= k < |wb.blocks| :: wb.blocks[k] in old(wb.blocks) || fresh(wb.blocks[k])
    {
      ghost var s := v.fields[i..];
      assert s[0] == v.fields[i] && s[1..] == v.fields[i + 1..];
      ok := PackPair(wb, v.fields[i], depth);
      if !ok {
        return;
      }
      i := i + 1;
    }
    assert wb.bytes == old(wb.bytes) + EncodePairs(v.fields);
    wb.Push([Tag(TYPE_NIL, 0)]);
    return true;
  }

  method PackPair(wb: WriteBlock, p: Pair, depth: nat) returns (ok: bool)
    requires wb.Valid() && LuaPair(p)
    modifies wb, wb.blocks
    ensures wb.Valid() && (ok <==> PairPackable(p, depth))
    ensures ok ==> wb.bytes == old(wb.bytes) + EncodePair(p)
    ensures forall k | 0 <= k < |wb.blocks| :: wb.blocks[k] in old(wb.blocks) || fresh(wb.blocks[k])
    decreases p
  {
    hide Encode, LuaValue, Packable, BadKey, WriteBlock.Valid;
    ok := PackOne(wb, p.key, depth);
    if !ok {
      return;
    }
    ok := PackOne(wb, p.val, depth);
  }

  /** `luaseri_pack`: every value from depth 0, then one buffer. */
  method Pack(vs: seq<Value>) returns (r: Option<array<Byte>>)
    requires LuaValues(vs)
    ensures r.Some? <==> AllPackable(vs, 0)
    ensures r.Some? ==> fresh(r.value) && r.value[..] == EncodeAll(vs) && Unpack(r.value[..]) == Some(vs)
  {
    hide Encode, Decode, LuaValue, Packable;
    var wb := new WriteBlock();
    var ok := WbTableArray(wb, Table(vs, []), 0);
    if !ok {
      return None;
    }
    var buffer := wb.Flatten();
    UnpackPack(vs);
    return Some(buffer);
  }

  //////////////////////////////////////////////////////////////////////////////
  // unpack_one
  //////////////////////////////////////////////////////////////////////////////

  /** Values read before the rest of a list. */
  function After<T>(done: seq<T>, more: Option<Parsed<seq<T>>>): Option<Parsed<seq<T>>> {
    if more.None? then None else Some(Parsed(done + more.value.value, more.value.rest))
  }

  lemma AfterNothing<T>(more: Option<Parsed<seq<T>>>)
    ensures After([], more) == more
  {
    if more.Some? {
      assert [] + more.value.value == more.value.value;
    }
  }

  lemma AfterOneMore<T>(done: seq<T>, x: T, more: Option<Parsed<seq<T>>>)
    ensures After(done, After([x], more)) == After(done + [x], more)
  {
    if more.Some? {
      assert done + ([x] + more.value.value) == (done + [x]) + more.value.value;
    }
  }

  lemma AfterAll<T>(done: seq<T>, rest: seq<Byte>)
    ensures After(done, Some(Parsed([], rest))) == Some(Parsed(done, rest))
  {
    assert done + [] == done;
  }

  class ReadBlock {
    const buffer: array<Byte>
    var len: int
    var ptr: int

    ghost predicate Valid()
      reads this
    {
      0 <= len && 0 <= ptr && ptr + len == buffer.Length
    }

    /** The bytes not yet read. */
    ghost function Remaining(): (s: seq<Byte>)
      requires Valid()
      reads this, buffer
      ensures |s| == len
    {
      buffer[ptr..]
    }

    /** The outcome of reading: the value `p` says and the bytes it leaves, or an error. */
    ghost predicate Outcome<T>(r: Option<T>, p: Option<Parsed<T>>)
      reads this, buffer
    {
      && (r.Some? <==> p.Some?)
      && (r.Some? ==> Valid() && r.value == p.value.value && Remaining() == p.value.rest)
    }

    constructor (b: array<Byte>)
      ensures Valid() && buffer == b && Remaining() == b[..]
    {
      buffer, len, ptr := b, b.Length, 0;
    }

    /** `rb_read`: a negative size moves the cursor back. */
    method Take(sz: int) returns (r: Option<seq<Byte>>)
      requires Valid()
      modifies this
      ensures sz >= 0 ==> Outcome(r, Read(old(Remaining()), sz)) && len <= old(len)
      ensures r.None? ==> len == old(len) && ptr == old(ptr)
      ensures sz < 0 ==> r == Some([]) && ptr == old(ptr) + sz && len == old(len) - sz
    {
      if len < sz {
        return None;
      }
      if sz >= 0 {
        assert buffer[ptr..][..sz] == buffer[ptr..ptr + sz] && buffer[ptr..][sz..] == buffer[ptr + sz..];
      }
      r := Some(if sz < 0 then [] else buffer[ptr..ptr + sz]);
      ptr := ptr + sz;
      len := len - sz;
    }

    method GetInteger(cookie: nat) returns (r: Option<int>)
      requires Valid()
      modifies this
      ensures Outcome(r, DecodeInt(old(Remaining()), cookie)) && (r.Some? ==> len <= old(len))
    {
      hide Read, FromLittleEndian, Power256;
      var width := NumberWidth(cookie);
      if width.None? {
        return None;
      }
      var bytes := Take(width.value);
      if bytes.None? {
        return None;
      }
      var n := FromLittleEndian(bytes.value);
      return Some(if width.value >= 4 then Signed(n, width.value) else n);
    }

    method GetEight() returns (r: Option<nat>)
      requires Valid()
      modifies this
      ensures Outcome(r, DecodeEight(old(Remaining()))) && (r.Some? ==> len <= old(len))
    {
      hide Read, FromLittleEndian;
      var bytes := Take(8);
      return if bytes.None? then None else Some(FromLittleEndian(bytes.value));
    }

    method GetBuffer(n: int) returns (r: Option<Value>)
      requires Valid()
      modifies this
      ensures Outcome(r, DecodeBytes(old(Remaining()), n)) && (r.Some? ==> len <= old(len))
    {
      hide Read;
      var bytes := Take(n);
      return if n < 0 || bytes.None? then None else Some(Str(bytes.value));
    }

    method GetLong(width: nat) returns (r: Option<Value>)
      requires Valid()
      modifies this
      ensures Outcome(r, DecodeLong(old(Remaining()), width)) && (r.Some? ==> len <= old(len))
    {
      hide Read, FromLittleEndian;
      var bytes := Take(width);
      if bytes.None? {
        return None;
      }
      r := GetBuffer(ToInt32(FromLittleEndian(bytes.value)));
    }

    method GetSize(cookie: nat) returns (r: Option<int>)
      requires Valid()
      modifies this
      ensures Outcome(r, DecodeSize(old(Remaining()), cookie)) && (r.Some? ==> len <= old(len))
    {
      hide DecodeInt;
      if cookie != MAX_COOKIE - 1 {
        return Some(cookie);
      }
      var t := Take(1);
      if t.None? || t.value[0] % 8 != TYPE_NUMBER || t.value[0] / 8 == NUMBER_REAL {
        return None;
      }
      var n := GetInteger(t.value[0] / 8);
      return if n.None? then None else Some(ToInt32(n.value));
    }

    method UnpackOne() returns (r: Option<Value>)
      requires Valid()
      modifies this
      ensures Outcome(r, Decode(old(Remaining()))) && (r.Some? ==> len < old(len))
      decreases len, 0
    {
      hide DecodeTagged;
      var t := Take(1);
      if t.None? {
        return None;
      }
      r := PushValue(t.value[0] % 8, t.value[0] / 8);
    }

    method PushValue(tag: nat, cookie: nat) returns (r: Option<Value>)
      requires Valid()
      modifies this
      ensures Outcome(r, DecodeTagged(old(Remaining()), tag, cookie)) && (r.Some? ==> len <= old(len))
      decreases len, 2
    {
      hide DecodeInt, DecodeEight, DecodeLong, DecodeBytes, DecodeTable;
      if tag == TYPE_NIL {
        return Some(Nil);
      } else if tag == TYPE_BOOLEAN {
        return Some(Bool(cookie != 0));
      } else if tag == TYPE_NUMBER {
        if cookie == NUMBER_REAL {
          var n := GetEight();
          return if n.None? then None else Some(Real(n.value));
        } else {
          var n := GetInteger(cookie);
          return if n.None? then None else Some(Int(n.value));
        }
      } else if tag == TYPE_USERDATA {
        var n := GetEight();
        return if n.None? then None else Some(Ptr(n.value));
      } else if tag == TYPE_SHORT_STRING {
        r := GetBuffer(cookie);
      } else if tag == TYPE_LONG_STRING {
        if cookie == 2 || cookie == 4 {
          r := GetLong(cookie);
        } else {
          return None;
        }
      } else if tag == TYPE_TABLE {
        r := UnpackTable(cookie);
      } else {
        return None;
      }
    }

    method UnpackTable(cookie: nat) returns (r: Option<Value>)
      requires Valid()
      modifies this
      ensures Outcome(r, DecodeTable(old(Remaining()), cookie)) && (r.Some? ==> len <= old(len))
      decreases len, 1, 2
    {
      hide DecodeSize, DecodeArray, DecodePairs;
      var size := GetSize(cookie);
      if size.None? {
        return None;
      }
      var items := UnpackItems(size.value);
      if items.None? {
        return None;
      }
      var fields := UnpackFields();
      return if fields.None? then None else Some(Table(items.value, fields.value));
    }

    method UnpackItems(n: int) returns (r: Option<seq<Value>>)
      requires Valid()
      modifies this
      ensures Outcome(r, DecodeArray(old(Remaining()), n)) && (r.Some? ==> len <= old(len))
      decreases len, 1, 1
    {
      hide Decode;
      var items: seq<Value>, i := [], 0;
      AfterNothing(DecodeArray(Remaining(), n));
      while i < n
        invariant 0 <= i && (i <= n || i == 0) && Valid() && len <= old(len)
        invariant DecodeArray(old(Remaining()), n) == After(items, DecodeArray(Remaining(), n - i))
      {
        var v := UnpackOne();
        if v.None? {
          return None;
        }
        AfterOneMore(items, v.value, DecodeArray(Remaining(), n - i - 1));
        items := items + [v.value];
        i := i + 1;
      }
      AfterAll(items, Remaining());
      return Some(items);
    }

    method UnpackFields() returns (r: Option<seq<Pair>>)
      requires Valid()
      modifies this
      ensures Outcome(r, DecodePairs(old(Remaining()))) && (r.Some? ==> len <= old(len))
      decreases len, 1, 0
    {
      hide Decode;
      var fields: seq<Pair> := [];
      AfterNothing(DecodePairs(Remaining()));
      while true
        invariant Valid() && len <= old(len)
        invariant DecodePairs(old(Remaining())) == After(fields, DecodePairs(Remaining()))
        decreases len
      {
        var key := UnpackOne();
        if key.None? {
          return None;
        }
        if key.value == Nil {
          AfterAll(fields, Remaining());
          return Some(fields);
        }
        var val := UnpackOne();
        if val.None? || BadKey(key.value) {
          return None;
        }
        AfterOneMore(fields, Pair(key.value, val.value), DecodePairs(Remaining()));
        fields := fields + [Pair(key.value, val.value)];
      }
    }

    /** `luaseri_unpack`: values until the buffer is used up. */
    method UnpackAll() returns (r: Option<seq<Value>>)
      requires Valid()
      modifies this
      ensures r == Unpack(old(Remaining()))
    {
      hide DecodeTagged;
      ghost var start := Remaining();
      var vs: seq<Value> := [];
      JoinNothing(Unpack(start));
      while true
        invariant Valid()
        invariant Unpack(start) == Join(vs, Unpack(Remaining()))
        decreases len
      {
        ghost var s := Remaining();
        var t := Take(1);
        if t.None? {
          assert vs + [] == vs;
          return Some(vs);
        }
        var v := PushValue(t.value[0] % 8, t.value[0] / 8);
        if v.None? {
          return None;
        }
        assert Unpack(s) == Join([v.value], Unpack(Remaining()));
        JoinOneMore(vs, v.value, Unpack(Remaining()));
        vs := vs + [v.value];
      }
    }
  }

  function Join(vs: seq<Value>, more: Option<seq<Value>>): Option<seq<Value>> {
    if more.None? then None else Some(vs + more.value)
  }

  lemma JoinNothing(more: Option<seq<Value>>)
    ensures Join([], more) == more
  {
    if more.Some? {
      assert [] + more.value == more.value;
    }
  }

  lemma JoinOneMore(vs: seq<Value>, v: Value, more: Option<seq<Value>>)
    ensures Join(vs, Join([v], more)) == Join(vs + [v], more)
  {
    if more.Some? {
      assert vs + ([v] + more.value) == (vs + [v]) + more.value;
    }
  }
}
