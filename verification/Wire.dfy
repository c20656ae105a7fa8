/** The one encoding of values on a byte channel. */
module Wire {
  import opened Readers

  const FORMAT_VERSION: Byte := 11

  /** How many tuples a value may be inside. */
  const MAX_DEPTH := 64

  // ----- floats -----

  const SIGN := 0x8000_0000_0000_0000
  const FRACTION := 0x10_0000_0000_0000

  /** Bits of a finite double: an exponent field that is not all ones. */
  predicate Finite(bits: nat) {
    bits / FRACTION % 2048 != 2047
  }

  /** A float's one durable form: finite, and zero without a sign. */
  function Canonical(bits: nat): Option<nat> {
    if !Finite(bits) then None else Some(if bits == SIGN then 0 else bits)
  }

  predicate FitsFloat(bits: nat) {
    bits < U64 && Canonical(bits) == Some(bits)
  }

  // ----- values -----

  datatype Value =
    | Ent(id: nat) | Int(n: int) | Float(bits: nat) | Text(text: Bytes) | Bool(on: bool)
    | Tuple(elems: seq<Value>) | Binary(data: Bytes) | Code(code: Bytes)

  const TAG_ENT: Byte := 1
  const TAG_INT: Byte := 2
  const TAG_TEXT: Byte := 3
  const TAG_BOOL: Byte := 4
  const TAG_TUPLE: Byte := 5
  const TAG_BYTES: Byte := 6
  const TAG_CODE: Byte := 7
  const TAG_FLOAT: Byte := 8

  /** Two's complement, both ways. */
  function Unsigned(n: int): nat {
    n % U64
  }

  function Signed(u: nat): int {
    if u % U64 < SIGN then u % U64 else u % U64 - U64
  }

  function PutValue(v: Value): Bytes {
    match v
    case Ent(id) => [TAG_ENT] + PutU64(id)
    case Int(n) => [TAG_INT] + PutU64(Unsigned(n))
    case Float(bits) => [TAG_FLOAT] + PutU64(bits)
    case Text(s) => [TAG_TEXT] + PutBytes(s)
    case Bool(on) => [TAG_BOOL, if on then 1 else 0]
    case Tuple(vs) => [TAG_TUPLE] + PutCells(vs)
    case Binary(s) => [TAG_BYTES] + PutBytes(s)
    case Code(s) => [TAG_CODE] + PutBytes(s)
  }

  /** A count, then the values. */
  function PutCells(vs: seq<Value>): Bytes {
    PutList(seq(|vs|, i requires 0 <= i < |vs| => PutValue(vs[i])))
  }

  /** One value, inside `depth` tuples. */
  function GetValue(b: Bytes, depth: nat): (r: Read<Value>)
    ensures r.Got? ==> |r.rest| < |b|
    decreases |b|, 0
  {
    if b == [] then Fail else
    var t := b[1..];
    if b[0] == TAG_ENT then (match GetU64(t) case Fail => Fail case Got(n, rest) => Got(Ent(n), rest))
    else if b[0] == TAG_INT then (match GetU64(t) case Fail => Fail case Got(n, rest) => Got(Int(Signed(n)), rest))
    else if b[0] == TAG_FLOAT then (
      match GetU64(t)
      case Fail => Fail
      case Got(n, rest) => match Canonical(n) case None => Fail case Some(bits) => Got(Float(bits), rest))
    else if b[0] == TAG_TEXT then (match GetText(t) case Fail => Fail case Got(s, rest) => Got(Text(s), rest))
    else if b[0] == TAG_BOOL then (if t == [] then Fail else Got(Bool(t[0] != 0), t[1..]))
    else if b[0] == TAG_TUPLE then (
      if depth >= MAX_DEPTH then Fail else
      match GetCells(t, depth + 1) case Fail => Fail case Got(vs, rest) => Got(Tuple(vs), rest))
    else if b[0] == TAG_BYTES then (match GetBytes(t) case Fail => Fail case Got(s, rest) => Got(Binary(s), rest))
    else if b[0] == TAG_CODE then (match GetBytes(t) case Fail => Fail case Got(s, rest) => Got(Code(s), rest))
    else Fail
  }

  /** The reader of values shorter than `limit`. */
  function ValueReader(limit: nat, depth: nat): (get: Bytes -> Read<Value>)
    ensures Shrinks(get)
    decreases limit, 1
  {
    (b: Bytes) => if |b| < limit then GetValue(b, depth) else Fail
  }

  /** The cells of a tuple, counted first. */
  function GetCells(b: Bytes, depth: nat): (r: Read<seq<Value>>)
    ensures r.Got? ==> |r.value| < U32 && |r.rest| < |b|
    decreases |b|, 2
  {
    GetList(ValueReader(|b|, depth), b)
  }

  /** A value inside `depth` tuples that the format can hold. */
  predicate FitsValue(v: Value, depth: nat)
    decreases v
  {
    match v
    case Ent(id) => id < U64
    case Int(n) => -SIGN <= n < SIGN
    case Float(bits) => FitsFloat(bits)
    case Text(s) => FitsText(s)
    case Bool(_) => true
    case Tuple(vs) => depth < MAX_DEPTH && |vs| < U32 && forall x <- vs :: FitsValue(x, depth + 1)
    case Binary(s) => |s| < U32
    case Code(s) => |s| < U32
  }

  /** What is written is read back, with whatever follows left to read. */
  lemma {:induction false} ValueRoundTrip(v: Value, depth: nat, rest: Bytes)
    requires FitsValue(v, depth)
    ensures GetValue(PutValue(v) + rest, depth) == Got(v, rest)
    decreases v, 0
  {
    if v.Tuple? {
      TupleFits(v, depth);
      hide FitsValue, GetValue, PutValue, GetCells, PutCells;
      CellsRoundTrip(v.elems, depth + 1, rest);
      TupleReads(v.elems, depth, rest);
    } else {
      CellRoundTrip(v, depth, rest);
    }
  }

  lemma TupleReads(vs: seq<Value>, depth: nat, rest: Bytes)
    requires depth < MAX_DEPTH && GetCells(PutCells(vs) + rest, depth + 1) == Got(vs, rest)
    ensures GetValue(PutValue(Tuple(vs)) + rest, depth) == Got(Tuple(vs), rest)
  {
    hide GetCells, PutCells, GetU64, GetBytes, GetText;
    var cells := PutCells(vs);
    var b := PutValue(Tuple(vs)) + rest;
    assert b == [TAG_TUPLE] + cells + rest;
    assert b[1..] == cells + rest;
  }

  lemma {:induction false} CellsRoundTrip(vs: seq<Value>, depth: nat, rest: Bytes)
    requires |vs| < U32 && forall x <- vs :: FitsValue(x, depth)
    ensures GetCells(PutCells(vs) + rest, depth) == Got(vs, rest)
    decreases vs, 1
  {
    hide PutValue, GetValue, FitsValue, PutList, GetList;
    var parts := seq(|vs|, i requires 0 <= i < |vs| => PutValue(vs[i]));
    var b := PutCells(vs) + rest;
    forall i, r: Bytes | 0 <= i < |vs| && |parts[i] + r| < |b|
      ensures ValueReader(|b|, depth)(parts[i] + r) == Got(vs[i], r) {
      ValueRoundTrip(vs[i], depth, r);
    }
    ListRoundTrip(ValueReader(|b|, depth), vs, parts, rest);
  }

  lemma TupleFits(v: Value, depth: nat)
    requires v.Tuple? && FitsValue(v, depth)
    ensures depth < MAX_DEPTH && |v.elems| < U32 && forall x <- v.elems :: FitsValue(x, depth + 1)
  {
  }

  lemma CellRoundTrip(v: Value, depth: nat, rest: Bytes)
    requires FitsValue(v, depth) && !v.Tuple?
    ensures GetValue(PutValue(v) + rest, depth) == Got(v, rest)
  {
    hide PutU32, PutU64, GetU32, GetU64, GetBytes, GetText, PutBytes, Utf8;
    var b := PutValue(v) + rest;
    match v
    case Ent(id) => U64RoundTrip(id, rest); assert b[1..] == PutU64(id) + rest;
    case Int(n) => SignRoundTrip(n); U64RoundTrip(Unsigned(n), rest); assert b[1..] == PutU64(Unsigned(n)) + rest;
    case Float(bits) => U64RoundTrip(bits, rest); assert b[1..] == PutU64(bits) + rest;
    case Text(s) => TextRoundTrip(s, rest); assert b[1..] == PutBytes(s) + rest;
    case Bool(on) => assert b[1..][1..] == rest;
    case Tuple(_) =>
    case Binary(s) => BytesRoundTrip(s, rest); assert b[1..] == PutBytes(s) + rest;
    case Code(s) => BytesRoundTrip(s, rest); assert b[1..] == PutBytes(s) + rest;
  }

  lemma SignRoundTrip(n: int)
    requires -SIGN <= n < SIGN
    ensures Unsigned(n) < U64 && Signed(Unsigned(n)) == n
  {
  }

  /** Whatever is read is within the limits. */
  lemma {:induction false} ReadValueFits(b: Bytes, depth: nat)
    ensures GetValue(b, depth).Got? ==> FitsValue(GetValue(b, depth).value, depth)
    decreases |b|, 0
  {
    hide IntAt, Utf8, GetCells;
    if GetValue(b, depth).Got? {
      var t := b[1..];
      if b[0] == TAG_TUPLE {
        ReadCellsFit(t, depth + 1);
        assert GetValue(b, depth).value == Tuple(GetCells(t, depth + 1).value);
      } else if b[0] == TAG_FLOAT {
        CanonicalFits(GetU64(t).value);
      }
    }
  }

  lemma CanonicalFits(n: nat)
    requires n < U64 && Canonical(n).Some?
    ensures FitsFloat(Canonical(n).value)
  {
  }

  lemma {:induction false} ReadCellsFit(b: Bytes, depth: nat)
    ensures GetCells(b, depth).Got? ==> forall v <- GetCells(b, depth).value :: FitsValue(v, depth)
    decreases |b|, 1
  {
    hide GetValue, FitsValue, GetList;
    var get := ValueReader(|b|, depth);
    var fits := (v: Value) => FitsValue(v, depth);
    forall x: Bytes ensures get(x).Got? ==> fits(get(x).value) {
      if |x| < |b| {
        ReadValueFits(x, depth);
      }
    }
    ListHolds(get, b, fits);
  }

  /** A value survives the trip exactly when it is within the limits of the format. */
  lemma ValueSurvivesIffFits(v: Value, depth: nat)
    ensures GetValue(PutValue(v), depth) == Got(v, []) <==> FitsValue(v, depth)
  {
    hide GetValue, PutValue, FitsValue;
    if FitsValue(v, depth) {
      ValueRoundTrip(v, depth, []);
      assert PutValue(v) + [] == PutValue(v);
    }
    ReadValueFits(PutValue(v), depth);
  }

  // ----- which bytes come back -----

  /** A flag is a byte of 0 or 1, a float is not a zero with a sign, and every cell of a
      tuple is plain in its turn. */
  predicate PlainValue(b: Bytes, depth: nat)
    decreases |b|, 0
  {
    b == [] ||
    var t := b[1..];
    if b[0] == TAG_FLOAT then GetU64(t).Got? ==> GetU64(t).value != SIGN
    else if b[0] == TAG_BOOL then t == [] || t[0] <= 1
    else b[0] == TAG_TUPLE ==> PlainCells(t, depth + 1)
  }

  function PlainTest(limit: nat, depth: nat): Bytes -> bool
    decreases limit, 1
  {
    (b: Bytes) => |b| < limit ==> PlainValue(b, depth)
  }

  predicate PlainCells(b: Bytes, depth: nat)
    decreases |b|, 2
  {
    PlainList(ValueReader(|b|, depth), PlainTest(|b|, depth), b)
  }

  lemma {:induction false} ValueBack(b: Bytes, depth: nat)
    requires GetValue(b, depth).Got?
    ensures Back(b, PutValue(GetValue(b, depth).value), GetValue(b, depth).rest, PlainValue(b, depth))
    decreases |b|, 0
  {
    if b[0] == TAG_TUPLE {
      hide Back, GetCells, PutCells, PlainCells;
      var t := b[1..];
      CellsBack(t, depth + 1);
      TagBack(b);
      var cells := GetCells(t, depth + 1);
      BackThen(b, [b[0]], t, true, PutCells(cells.value), cells.rest, PlainCells(t, depth + 1));
    } else {
      CellBack(b, depth);
    }
  }

  lemma CellBack(b: Bytes, depth: nat)
    requires GetValue(b, depth).Got? && b[0] != TAG_TUPLE
    ensures Back(b, PutValue(GetValue(b, depth).value), GetValue(b, depth).rest, PlainValue(b, depth))
  {
    hide Back, PutU64, GetU64, PutBytes, GetBytes, GetText, Utf8;
    var t := b[1..];
    TagBack(b);
    if b[0] == TAG_ENT {
      U64Back(t);
      BackThen(b, [b[0]], t, true, PutU64(GetU64(t).value), GetU64(t).rest, true);
    } else if b[0] == TAG_INT {
      U64Back(t);
      UnsignedBack(GetU64(t).value);
      BackThen(b, [b[0]], t, true, PutU64(GetU64(t).value), GetU64(t).rest, true);
    } else if b[0] == TAG_FLOAT {
      FloatBack(t);
      BackThen(b, [b[0]], t, true, PutU64(Canonical(GetU64(t).value).value), GetU64(t).rest, GetU64(t).value != SIGN);
    } else if b[0] == TAG_BOOL {
      FlagBack(t);
      var flag: Byte := if t[0] != 0 then 1 else 0;
      BackThen(b, [b[0]], t, true, [flag], t[1..], t[0] <= 1);
      assert [TAG_BOOL] + [flag] == [TAG_BOOL, flag];
    } else if b[0] == TAG_TEXT {
      TextBack(t);
      BackThen(b, [b[0]], t, true, PutBytes(GetText(t).value), GetText(t).rest, true);
    } else {
      BytesBack(t);
      BackThen(b, [b[0]], t, true, PutBytes(GetBytes(t).value), GetBytes(t).rest, true);
    }
  }

  lemma UnsignedBack(u: nat)
    requires u < U64
    ensures Unsigned(Signed(u)) == u
  {
  }

  lemma FlagBack(t: Bytes)
    requires t != []
    ensures Back(t, [if t[0] != 0 then 1 else 0], t[1..], t[0] <= 1)
  {
  }

  /** Only the signed zero is written otherwise than it was read. */
  lemma FloatBack(t: Bytes)
    requires GetU64(t).Got? && Canonical(GetU64(t).value).Some?
    ensures Back(t, PutU64(Canonical(GetU64(t).value).value), GetU64(t).rest, GetU64(t).value != SIGN)
  {
    hide PutU64, GetU64;
    U64Back(t);
    if GetU64(t).value == SIGN && PutU64(0) <= t {
      assert t == PutU64(0) + t[|PutU64(0)|..];
      U64RoundTrip(0, t[|PutU64(0)|..]);
      assert false;
    }
  }

  lemma {:induction false} CellsBack(b: Bytes, depth: nat)
    requires GetCells(b, depth).Got?
    ensures Back(b, PutCells(GetCells(b, depth).value), GetCells(b, depth).rest, PlainCells(b, depth))
    decreases |b|, 1
  {
    hide Back, GetValue, PutValue, PlainValue, GetList, PutList, PlainList;
    var get, plain := ValueReader(|b|, depth), PlainTest(|b|, depth);
    forall x: Bytes ensures get(x).Got? ==> Back(x, PutValue(get(x).value), get(x).rest, plain(x)) {
      if get(x).Got? {
        ValueBack(x, depth);
      }
    }
    ListBack(get, PutValue, plain, b);
    var vs := GetCells(b, depth).value;
    assert Parts(PutValue, vs) == seq(|vs|, i requires 0 <= i < |vs| => PutValue(vs[i]));
  }

  /** **Which bytes come back.** Bytes that read as a value are what is written of it
      exactly when they are plain. */
  lemma ValueBytesSurviveIffPlain(b: Bytes, depth: nat)
    requires GetValue(b, depth).Got?
    ensures PutValue(GetValue(b, depth).value) + GetValue(b, depth).rest == b <==> PlainValue(b, depth)
  {
    hide GetValue, PutValue, PlainValue, Back;
    ValueBack(b, depth);
    BackIff(b, PutValue(GetValue(b, depth).value), GetValue(b, depth).rest, PlainValue(b, depth));
  }

  // ----- the encoder onto a buffer and the decoder's cursor -----

  method EncodeValue(v: Value, out: Bytes) returns (out': Bytes)
    ensures out' == out + PutValue(v)
    decreases v
  {
    hide PutU64, PutBytes, PutCells;
    match v {
      case Ent(id) => out' := out + [TAG_ENT] + PutU64(id);
      case Int(n) => out' := out + [TAG_INT] + PutU64(Unsigned(n));
      case Float(bits) => out' := out + [TAG_FLOAT] + PutU64(bits);
      case Text(s) => out' := out + [TAG_TEXT] + PutBytes(s);
      case Bool(on) => out' := out + [TAG_BOOL, if on then 1 else 0];
      case Binary(s) => out' := out + [TAG_BYTES] + PutBytes(s);
      case Code(s) => out' := out + [TAG_CODE] + PutBytes(s);
      case Tuple(vs) =>
        out' := EncodeCells(vs, out + [TAG_TUPLE]);
    }
  }

  /** A count, then the values. */
  method EncodeCells(vs: seq<Value>, out: Bytes) returns (out': Bytes)
    ensures out' == out + PutCells(vs)
    decreases vs
  {
    hide PutU32, PutValue, Flatten;
    ghost var parts := seq(|vs|, i requires 0 <= i < |vs| => PutValue(vs[i]));
    out' := out + PutU32(|vs|);
    ListBegun(out, parts);
    for i := 0 to |vs|
      invariant Begun(out, parts, out', i)
    {
      NextWritten(out, parts, out', i);
      out' := EncodeValue(vs[i], out');
    }
    ListWritten(out, parts, out');
  }

  method DecodeValueAt(bytes: Bytes, pos: nat, depth: nat) returns (r: Option<(Value, nat)>)
    requires pos <= |bytes|
    ensures Agrees(bytes, r, GetValue(bytes[pos..], depth))
    decreases |bytes| - pos, 0
  {
    hide GetU64, GetBytes, Utf8, GetCells;
    if pos == |bytes| {
      return None;
    }
    var b := bytes[pos..];
    var p := pos + 1;
    assert bytes[p..] == b[1..];
    match bytes[pos] {
      case 1 => var n := ReadU64(bytes, p); r := if n.None? then None else Some((Ent(n.value.0), n.value.1));
      case 2 => var n := ReadU64(bytes, p); r := if n.None? then None else Some((Int(Signed(n.value.0)), n.value.1));
      case 8 =>
        var n := ReadU64(bytes, p);
        if n.None? || Canonical(n.value.0).None? {
          return None;
        }
        r := Some((Float(Canonical(n.value.0).value), n.value.1));
      case 3 =>
        var s := ReadBytes(bytes, p);
        if s.None? || !Utf8(s.value.0) {
          return None;
        }
        r := Some((Text(s.value.0), s.value.1));
      case 4 => r := if p == |bytes| then None else Some((Bool(bytes[p] != 0), p + 1));
      case 5 =>
        if depth >= MAX_DEPTH {
          return None;
        }
        var vs := DecodeCells(bytes, p, depth + 1);
        r := if vs.None? then None else Some((Tuple(vs.value.0), vs.value.1));
      case 6 => var s := ReadBytes(bytes, p); r := if s.None? then None else Some((Binary(s.value.0), s.value.1));
      case 7 => var s := ReadBytes(bytes, p); r := if s.None? then None else Some((Code(s.value.0), s.value.1));
      case _ => r := None;
    }
  }

  method DecodeCells(bytes: Bytes, pos: nat, depth: nat) returns (r: Option<(seq<Value>, nat)>)
    requires pos <= |bytes|
    ensures Agrees(bytes, r, GetCells(bytes[pos..], depth))
    decreases |bytes| - pos, 1
  {
    hide GetU32, GetValue, GetMany, SoFar;
    var count :- ReadU32(bytes, pos);
    var p := count.1;
    var vals: seq<Value> := [];
    ghost var get := ValueReader(|bytes| - pos, depth);
    ghost var all := GetMany(get, count.0, bytes[p..]);
    NothingRead(all);
    for i := 0 to count.0
      invariant pos < p <= |bytes|
      invariant SoFar(all, vals, GetMany(get, count.0 - i, bytes[p..]))
    {
      NextRead(all, vals, get, count.0 - i, bytes[p..]);
      var v :- DecodeValueAt(bytes, p, depth);
      vals, p := vals + [v.0], v.1;
    }
    NoneLeft(get, bytes[p..]);
    AllRead(all, vals, bytes[p..]);
    r := Some((vals, p));
  }
}
