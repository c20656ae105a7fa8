/** Bytes on a channel: integers, runs of bytes and counted lists, written onto a buffer
    and read from a cursor. A reader's cursor is what is left to read. */
module Readers {
  datatype Option<+T> = None | Some(value: T) {
    predicate IsFailure() {
      None?
    }

    function PropagateFailure<U>(): Option<U>
      requires None?
    {
      None
    }

    function Extract(): T
      requires Some?
    {
      value
    }
  }

  type Byte = x: int | 0 <= x < 256
  type Bytes = seq<Byte>

  /** A value read, and the bytes after it. */
  datatype Read<+T> = Fail | Got(value: T, rest: Bytes) {
    predicate IsFailure() {
      Fail?
    }

    function PropagateFailure<U>(): Read<U>
      requires Fail?
    {
      Fail
    }

    function Extract(): (T, Bytes)
      requires Got?
    {
      (value, rest)
    }
  }

  const U32 := 0x1_0000_0000
  const U64 := 0x1_0000_0000_0000_0000

  // ----- fixed-width integers, most significant byte first -----

  function Power(k: nat): nat {
    if k == 0 then 1 else 256 * Power(k - 1)
  }

  function PutInt(k: nat, n: nat): (b: Bytes)
    ensures |b| == k
  {
    if k == 0 then [] else PutInt(k - 1, n / 256) + [n % 256]
  }

  /** The value of the first `k` bytes. */
  function IntAt(k: nat, b: Bytes): (n: nat)
    requires k <= |b|
    ensures n < Power(k)
  {
    if k == 0 then 0 else IntAt(k - 1, b) * 256 + b[k - 1]
  }

  lemma {:induction false} IntRoundTrip(k: nat, n: nat, rest: Bytes)
    requires n < Power(k)
    ensures IntAt(k, PutInt(k, n) + rest) == n
  {
    if k > 0 {
      var b, r := PutInt(k - 1, n / 256), [n % 256] + rest;
      assert PutInt(k, n) + rest == b + r;
      IntRoundTrip(k - 1, n / 256, r);
    }
  }

  lemma Powers()
    ensures Power(4) == U32 && Power(8) == U64
  {
    assert Power(1) == 256 && Power(2) == 65536 && Power(3) == 16777216;
    assert Power(5) == 256 * U32 && Power(6) == 65536 * U32 && Power(7) == 16777216 * U32;
  }

  function PutU32(n: nat): Bytes {
    PutInt(4, n % U32)
  }

  function GetU32(b: Bytes): (r: Read<nat>)
    ensures r.Got? ==> r.value < U32 && |r.rest| == |b| - 4
  {
    Powers();
    if |b| < 4 then Fail else Got(IntAt(4, b), b[4..])
  }

  lemma U32RoundTrip(n: nat, rest: Bytes)
    requires n < U32
    ensures GetU32(PutU32(n) + rest) == Got(n, rest)
  {
    hide PutInt, IntAt;
    Powers();
    IntRoundTrip(4, n, rest);
  }

  function PutU64(n: nat): Bytes {
    PutInt(8, n % U64)
  }

  function GetU64(b: Bytes): (r: Read<nat>)
    ensures r.Got? ==> r.value < U64 && |r.rest| == |b| - 8
  {
    Powers();
    if |b| < 8 then Fail else Got(IntAt(8, b), b[8..])
  }

  lemma U64RoundTrip(n: nat, rest: Bytes)
    requires n < U64
    ensures GetU64(PutU64(n) + rest) == Got(n, rest)
  {
    hide PutInt, IntAt;
    Powers();
    IntRoundTrip(8, n, rest);
  }

  // ----- runs of bytes, text, floats -----

  function PutBytes(s: Bytes): Bytes {
    PutU32(|s|) + s
  }

  function GetBytes(b: Bytes): (r: Read<Bytes>)
    ensures r.Got? ==> |r.value| < U32 && |r.rest| < |b|
  {
    match GetU32(b)
    case Fail => Fail
    case Got(n, rest) => if |rest| < n then Fail else Got(rest[..n], rest[n..])
  }

  lemma BytesRoundTrip(s: Bytes, rest: Bytes)
    requires |s| < U32
    ensures GetBytes(PutBytes(s) + rest) == Got(s, rest)
  {
    assert PutBytes(s) + rest == PutU32(|s|) + (s + rest);
    U32RoundTrip(|s|, s + rest);
    assert (s + rest)[..|s|] == s && (s + rest)[|s|..] == rest;
  }

  predicate Continues(b: Bytes, n: nat) {
    n <= |b| && forall i | 0 <= i < n :: 0x80 <= b[i] <= 0xBF
  }

  /** Well-formed UTF-8: no overlong form, no surrogate, nothing past the last code
      point. */
  predicate Utf8(b: Bytes) {
    if b == [] then true
    else if b[0] <= 0x7F then Utf8(b[1..])
    else if 0xC2 <= b[0] <= 0xDF then Continues(b[1..], 1) && Utf8(b[2..])
    else if 0xE0 <= b[0] <= 0xEF then
      Continues(b[1..], 2) && (b[0] == 0xE0 ==> b[1] >= 0xA0) && (b[0] == 0xED ==> b[1] <= 0x9F) && Utf8(b[3..])
    else if 0xF0 <= b[0] <= 0xF4 then
      Continues(b[1..], 3) && (b[0] == 0xF0 ==> b[1] >= 0x90) && (b[0] == 0xF4 ==> b[1] <= 0x8F) && Utf8(b[4..])
    else false
  }

  function GetText(b: Bytes): (r: Read<Bytes>)
    ensures r.Got? ==> |r.value| < U32 && Utf8(r.value) && |r.rest| < |b|
  {
    match GetBytes(b) case Fail => Fail case Got(s, rest) => if Utf8(s) then Got(s, rest) else Fail
  }

  /** Text a string may hold and a length may count. */
  predicate FitsText(s: Bytes) {
    |s| < U32 && Utf8(s)
  }

  lemma TextRoundTrip(s: Bytes, rest: Bytes)
    requires FitsText(s)
    ensures GetText(PutBytes(s) + rest) == Got(s, rest)
  {
    BytesRoundTrip(s, rest);
  }

  // ----- counted lists -----

  function Flatten(parts: seq<Bytes>): Bytes {
    if parts == [] then [] else parts[0] + Flatten(parts[1..])
  }

  /** A count, then the parts. */
  function PutList(parts: seq<Bytes>): Bytes {
    PutU32(|parts|) + Flatten(parts)
  }

  /** What a reader leaves is less than what it was given. */
  ghost predicate Shrinks<T>(get: Bytes -> Read<T>) {
    forall b: Bytes :: get(b).Got? ==> |get(b).rest| < |b|
  }

  /** That many items, one after another. */
  function GetMany<T>(get: Bytes -> Read<T>, n: nat, b: Bytes): (r: Read<seq<T>>)
    ensures r.Got? ==> |r.value| == n
    ensures r.Got? && Shrinks(get) ==> |r.rest| <= |b|
    decreases n
  {
    if n == 0 then Got([], b) else
    match get(b)
    case Fail => Fail
    case Got(x, rest) => match GetMany(get, n - 1, rest) case Fail => Fail case Got(xs, rest') => Got([x] + xs, rest')
  }

  /** A count, then that many items. */
  function GetList<T>(get: Bytes -> Read<T>, b: Bytes): (r: Read<seq<T>>)
    ensures r.Got? ==> |r.value| < U32
    ensures r.Got? && Shrinks(get) ==> |r.rest| < |b|
  {
    match GetU32(b) case Fail => Fail case Got(n, rest) => GetMany(get, n, rest)
  }

  lemma FlattenFrom(parts: seq<Bytes>, i: nat)
    requires i < |parts|
    ensures Flatten(parts[i..]) == parts[i] + Flatten(parts[i + 1..])
  {
    assert parts[i..][1..] == parts[i + 1..];
  }

  lemma NoParts(parts: seq<Bytes>)
    requires parts == []
    ensures Flatten(parts) == []
  {
  }

  /** Items that read back one by one read back as a list. */
  lemma {:induction false} ManyRoundTrip<T>(get: Bytes -> Read<T>, xs: seq<T>, parts: seq<Bytes>, rest: Bytes)
    requires |parts| == |xs|
    requires forall i, r: Bytes | 0 <= i < |xs| && |parts[i] + r| <= |Flatten(parts) + rest| ::
               get(parts[i] + r) == Got(xs[i], r)
    ensures GetMany(get, |xs|, Flatten(parts) + rest) == Got(xs, rest)
    decreases |xs|
  {
    if xs == [] {
      assert Flatten(parts) + rest == rest;
    } else {
      var rest' := Flatten(parts[1..]) + rest;
      assert Flatten(parts) + rest == parts[0] + rest';
      assert get(parts[0] + rest') == Got(xs[0], rest');
      forall i, r: Bytes | 0 <= i < |xs[1..]| && |parts[1..][i] + r| <= |rest'|
        ensures get(parts[1..][i] + r) == Got(xs[1..][i], r) {
        assert parts[1..][i] + r == parts[i + 1] + r;
      }
      ManyRoundTrip(get, xs[1..], parts[1..], rest);
      assert [xs[0]] + xs[1..] == xs;
    }
  }

  lemma ListRoundTrip<T>(get: Bytes -> Read<T>, xs: seq<T>, parts: seq<Bytes>, rest: Bytes)
    requires |parts| == |xs| < U32
    requires forall i, r: Bytes | 0 <= i < |xs| && |parts[i] + r| < |PutList(parts) + rest| ::
               get(parts[i] + r) == Got(xs[i], r)
    ensures GetList(get, PutList(parts) + rest) == Got(xs, rest)
  {
    hide PutU32, GetU32, Flatten;
    assert PutList(parts) + rest == PutU32(|parts|) + (Flatten(parts) + rest);
    U32RoundTrip(|parts|, Flatten(parts) + rest);
    U32Width(|parts|);
    ManyRoundTrip(get, xs, parts, rest);
  }

  lemma U32Width(n: nat)
    ensures |PutU32(n)| == 4
  {
  }

  /** What holds of every item read holds of every item of a list read. */
  lemma {:induction false} ManyHold<T>(get: Bytes -> Read<T>, n: nat, b: Bytes, p: T -> bool)
    requires forall x: Bytes :: get(x).Got? ==> p(get(x).value)
    ensures GetMany(get, n, b).Got? ==> forall x <- GetMany(get, n, b).value :: p(x)
    decreases n
  {
    if n > 0 && get(b).Got? {
      ManyHold(get, n - 1, get(b).rest, p);
    }
  }

  lemma ListHolds<T>(get: Bytes -> Read<T>, b: Bytes, p: T -> bool)
    requires forall x: Bytes :: get(x).Got? ==> p(get(x).value)
    ensures GetList(get, b).Got? ==> |GetList(get, b).value| < U32 && forall x <- GetList(get, b).value :: p(x)
  {
    if GetU32(b).Got? {
      ManyHold(get, GetU32(b).value, GetU32(b).rest, p);
    }
  }

  // ----- bytes that come back -----

  /** Writing again what was read from `b` gives `b` back if `plain`, and does not even
      begin as `b` does if not. */
  ghost predicate Back(b: Bytes, put: Bytes, rest: Bytes, plain: bool) {
    if plain then put + rest == b else !(put <= b)
  }

  /** So it gives `b` back exactly when `plain`. */
  lemma BackIff(b: Bytes, put: Bytes, rest: Bytes, plain: bool)
    requires Back(b, put, rest, plain)
    ensures put + rest == b <==> plain
  {
  }

  /** One thing read after another comes back exactly when both do. */
  lemma BackThen(b: Bytes, p: Bytes, mid: Bytes, plain: bool, q: Bytes, rest: Bytes, plain': bool)
    requires Back(b, p, mid, plain) && Back(mid, q, rest, plain')
    ensures Back(b, p + q, rest, plain && plain')
  {
    PrefixThen(b, p, q);
    if plain {
      assert p + q + rest == p + (q + rest) && b[|p|..] == mid;
    }
  }

  lemma PrefixThen(b: Bytes, p: Bytes, q: Bytes)
    ensures p + q <= b <==> p <= b && q <= b[|p|..]
  {
    if p + q <= b {
      assert p == (p + q)[..|p|] == b[..|p|] && q == (p + q)[|p|..] == b[|p|..|p + q|] == b[|p|..][..|q|];
    }
    if p <= b && q <= b[|p|..] {
      assert b == p + b[|p|..];
    }
  }

  lemma NothingBack(b: Bytes)
    ensures Back(b, [], b, true)
  {
    assert [] + b == b;
  }

  lemma TagBack(b: Bytes)
    requires b != []
    ensures Back(b, [b[0]], b[1..], true)
  {
  }

  lemma {:induction false} IntBack(k: nat, b: Bytes)
    requires k <= |b|
    ensures PutInt(k, IntAt(k, b)) == b[..k]
  {
    if k > 0 {
      var n := IntAt(k - 1, b) * 256 + b[k - 1];
      assert n / 256 == IntAt(k - 1, b) && n % 256 == b[k - 1];
      IntBack(k - 1, b);
      assert b[..k] == b[..k - 1] + [b[k - 1]];
    }
  }

  lemma U32Back(b: Bytes)
    requires GetU32(b).Got?
    ensures Back(b, PutU32(GetU32(b).value), GetU32(b).rest, true)
  {
    IntBack(4, b);
    assert b[..4] + b[4..] == b;
  }

  lemma U64Back(b: Bytes)
    requires GetU64(b).Got?
    ensures Back(b, PutU64(GetU64(b).value), GetU64(b).rest, true)
  {
    IntBack(8, b);
    assert b[..8] + b[8..] == b;
  }

  lemma BytesBack(b: Bytes)
    requires GetBytes(b).Got?
    ensures Back(b, PutBytes(GetBytes(b).value), GetBytes(b).rest, true)
  {
    hide GetU32, PutU32;
    U32Back(b);
    var s := GetBytes(b).value;
    assert PutBytes(s) + GetBytes(b).rest == PutU32(|s|) + GetU32(b).rest;
  }

  lemma TextBack(b: Bytes)
    requires GetText(b).Got?
    ensures Back(b, PutBytes(GetText(b).value), GetText(b).rest, true)
  {
    hide Utf8, Back, GetBytes, PutBytes;
    BytesBack(b);
  }

  /** Each of the items comes back. */
  predicate PlainMany<T>(get: Bytes -> Read<T>, plain: Bytes -> bool, n: nat, b: Bytes)
    decreases n
  {
    n == 0 || (plain(b) && match get(b) case Fail => true case Got(_, rest) => PlainMany(get, plain, n - 1, rest))
  }

  predicate PlainList<T>(get: Bytes -> Read<T>, plain: Bytes -> bool, b: Bytes) {
    match GetU32(b) case Fail => true case Got(n, rest) => PlainMany(get, plain, n, rest)
  }

  function Parts<T>(put: T -> Bytes, xs: seq<T>): (ps: seq<Bytes>)
    ensures |ps| == |xs| && forall i | 0 <= i < |xs| :: ps[i] == put(xs[i])
  {
    seq(|xs|, i requires 0 <= i < |xs| => put(xs[i]))
  }

  lemma {:induction false} ManyBack<T>(get: Bytes -> Read<T>, put: T -> Bytes, plain: Bytes -> bool, n: nat, b: Bytes)
    requires GetMany(get, n, b).Got?
    requires forall x: Bytes :: get(x).Got? ==> Back(x, put(get(x).value), get(x).rest, plain(x))
    ensures Back(b, Flatten(Parts(put, GetMany(get, n, b).value)), GetMany(get, n, b).rest, PlainMany(get, plain, n, b))
    decreases n
  {
    hide Back;
    if n == 0 {
      NothingBack(b);
    } else {
      var x, rest := get(b).value, get(b).rest;
      ManyBack(get, put, plain, n - 1, rest);
      var r := GetMany(get, n - 1, rest);
      BackThen(b, put(x), rest, plain(b), Flatten(Parts(put, r.value)), r.rest, PlainMany(get, plain, n - 1, rest));
      assert Parts(put, [x] + r.value)[1..] == Parts(put, r.value);
    }
  }

  lemma ListBack<T>(get: Bytes -> Read<T>, put: T -> Bytes, plain: Bytes -> bool, b: Bytes)
    requires GetList(get, b).Got?
    requires forall x: Bytes :: get(x).Got? ==> Back(x, put(get(x).value), get(x).rest, plain(x))
    ensures Back(b, PutList(Parts(put, GetList(get, b).value)), GetList(get, b).rest, PlainList(get, plain, b))
  {
    hide Back, GetU32, PutU32, GetMany, PlainMany, Flatten;
    var n, rest := GetU32(b).value, GetU32(b).rest;
    var r := GetMany(get, n, rest);
    U32Back(b);
    ManyBack(get, put, plain, n, rest);
    BackThen(b, PutU32(n), rest, true, Flatten(Parts(put, r.value)), r.rest, PlainMany(get, plain, n, rest));
  }

  // ----- the buffer and the cursor -----

  /** What is left to write of a list: everything from part `i` on. */
  ghost predicate Begun(out: Bytes, parts: seq<Bytes>, now: Bytes, i: nat) {
    i <= |parts| && now + Flatten(parts[i..]) == out + PutList(parts)
  }

  lemma ListBegun(out: Bytes, parts: seq<Bytes>)
    ensures Begun(out, parts, out + PutU32(|parts|), 0)
  {
    hide PutU32, Flatten;
    assert parts[0..] == parts;
    assert out + PutU32(|parts|) + Flatten(parts) == out + (PutU32(|parts|) + Flatten(parts));
  }

  lemma NextWritten(out: Bytes, parts: seq<Bytes>, now: Bytes, i: nat)
    requires i < |parts| && Begun(out, parts, now, i)
    ensures Begun(out, parts, now + parts[i], i + 1)
  {
    hide PutList, Flatten;
    FlattenFrom(parts, i);
    assert now + (parts[i] + Flatten(parts[i + 1..])) == now + parts[i] + Flatten(parts[i + 1..]);
  }

  lemma ListWritten(out: Bytes, parts: seq<Bytes>, now: Bytes)
    requires Begun(out, parts, now, |parts|)
    ensures now == out + PutList(parts)
  {
    hide PutList, Flatten;
    NoParts(parts[|parts|..]);
    assert now + [] == now;
  }

  /** A cursor's answer: the value read and where reading stopped, never past the end. */
  ghost predicate Agrees<T>(bytes: Bytes, r: Option<(T, nat)>, g: Read<T>) {
    match g
    case Fail => r == None
    case Got(v, rest) => r.Some? && r.value.0 == v && r.value.1 <= |bytes| && bytes[r.value.1..] == rest
  }

  method ReadSlice(bytes: Bytes, pos: nat, len: nat) returns (r: Option<(Bytes, nat)>)
    requires pos <= |bytes|
    ensures r == if pos + len <= |bytes| then Some((bytes[pos..pos + len], pos + len)) else None
  {
    r := if pos + len <= |bytes| then Some((bytes[pos..pos + len], pos + len)) else None;
  }

  method ReadU32(bytes: Bytes, pos: nat) returns (r: Option<(nat, nat)>)
    requires pos <= |bytes|
    ensures Agrees(bytes, r, GetU32(bytes[pos..]))
  {
    var s := ReadSlice(bytes, pos, 4);
    if s.None? {
      return None;
    }
    IntPrefix(4, bytes[pos..], s.value.0);
    r := Some((IntAt(4, s.value.0), s.value.1));
  }

  method ReadU64(bytes: Bytes, pos: nat) returns (r: Option<(nat, nat)>)
    requires pos <= |bytes|
    ensures Agrees(bytes, r, GetU64(bytes[pos..]))
  {
    var s := ReadSlice(bytes, pos, 8);
    if s.None? {
      return None;
    }
    IntPrefix(8, bytes[pos..], s.value.0);
    r := Some((IntAt(8, s.value.0), s.value.1));
  }

  lemma {:induction false} IntPrefix(k: nat, a: Bytes, b: Bytes)
    requires k <= |a| && k <= |b| && a[..k] == b[..k]
    ensures IntAt(k, a) == IntAt(k, b)
  {
    if k > 0 {
      assert a[k - 1] == a[..k][k - 1] && b[k - 1] == b[..k][k - 1];
      assert a[..k - 1] == a[..k][..k - 1] && b[..k - 1] == b[..k][..k - 1];
      IntPrefix(k - 1, a, b);
    }
  }

  /** A length and that many bytes. */
  method ReadBytes(bytes: Bytes, pos: nat) returns (r: Option<(Bytes, nat)>)
    requires pos <= |bytes|
    ensures Agrees(bytes, r, GetBytes(bytes[pos..]))
  {
    hide GetU32;
    var n := ReadU32(bytes, pos);
    if n.None? {
      return None;
    }
    var p := n.value.1;
    r := ReadSlice(bytes, p, n.value.0);
    if r.Some? {
      assert bytes[p..][..n.value.0] == r.value.0 && bytes[p..][n.value.0..] == bytes[r.value.1..];
    }
  }

  /** Reading it all is what has been read, then the rest of it. */
  ghost predicate SoFar<T>(all: Read<seq<T>>, xs: seq<T>, left: Read<seq<T>>) {
    match left case Fail => all == Fail case Got(ys, rest) => all == Got(xs + ys, rest)
  }

  lemma NothingRead<T>(all: Read<seq<T>>)
    ensures SoFar(all, [], all)
  {
    if all.Got? {
      assert [] + all.value == all.value;
    }
  }

  lemma OneRead<T>(all: Read<seq<T>>, xs: seq<T>, x: T, left: Read<seq<T>>)
    requires SoFar(all, xs, if left.Fail? then Fail else Got([x] + left.value, left.rest))
    ensures SoFar(all, xs + [x], left)
  {
    if left.Got? {
      assert xs + ([x] + left.value) == xs + [x] + left.value;
    }
  }

  lemma AllRead<T>(all: Read<seq<T>>, xs: seq<T>, b: Bytes)
    requires SoFar(all, xs, Got([], b))
    ensures all == Got(xs, b)
  {
    assert xs + [] == xs;
  }

  lemma NoneLeft<T>(get: Bytes -> Read<T>, b: Bytes)
    ensures GetMany(get, 0, b) == Got([], b)
  {
  }

  /** One more item of a list, read or not. */
  lemma NextRead<T>(all: Read<seq<T>>, xs: seq<T>, get: Bytes -> Read<T>, n: nat, b: Bytes)
    requires n > 0 && SoFar(all, xs, GetMany(get, n, b))
    ensures get(b).Fail? ==> all == Fail
    ensures get(b).Got? ==> SoFar(all, xs + [get(b).value], GetMany(get, n - 1, get(b).rest))
  {
    if get(b).Got? {
      OneRead(all, xs, get(b).value, GetMany(get, n - 1, get(b).rest));
    }
  }
}
