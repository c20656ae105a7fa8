/** Stored behaviors on the wire: a message guard, parameter names, and operations
    over expressions, printed and parsed by mutual recursion to a bounded depth. */
module Behaviors {
  import opened Readers
  import opened Wire

  /** How many guards, operations and expressions one may be inside, of whatever kinds. */
  const MAX_IR_DEPTH := 256

  datatype RowExpr = Col(i: nat) | Lit(v: Value)

  datatype PredExpr = Eq(a: RowExpr, b: RowExpr) | And(ps: seq<PredExpr>)

  datatype ValueExpr = Local(name: Bytes) | Literal(v: Value) | Intrinsic(name: Bytes, args: seq<ValueExpr>)

  datatype CompareOp = CmpEq | CmpNe | CmpLt | CmpLe | CmpGt | CmpGe

  datatype BoolExpr =
    | Truth(value: ValueExpr)
    | Compare(op: CompareOp, l: ValueExpr, r: ValueExpr)
    | Not(inner: BoolExpr)
    | Both(left: BoolExpr, right: BoolExpr)
    | Either(left: BoolExpr, right: BoolExpr)

  datatype ExprIr = OfValue(value: ValueExpr) | OfBool(test: BoolExpr)

  datatype FindArg = Match(e: ExprIr) | Bind(local: Bytes) | MatchBind(e: ExprIr, local: Bytes)

  datatype MatchOp = Exact | Word

  datatype Op =
    | Resolve(view: Bytes, args: seq<ExprIr>, column: Bytes, how: MatchOp, rhs: ExprIr, dests: seq<Bytes>)
    | Find(relation: Bytes, finds: seq<FindArg>)
    | Let(local: Bytes, value: ExprIr)
    | If(condition: BoolExpr, then_: seq<Op>, else_: seq<Op>)
    | Expect(relation: Bytes, args: seq<ExprIr>)
    | Assert(relation: Bytes, args: seq<ExprIr>)
    | Retract(relation: Bytes, args: seq<ExprIr>)
    | Emit(relation: Bytes, args: seq<ExprIr>)
    | Invoke(capability: Bytes, args: seq<ExprIr>, dests: seq<Bytes>)

  datatype Behavior = Behavior(guard: PredExpr, parameters: seq<Bytes>, body: seq<Op>)

  function GetTag(b: Bytes): (r: Read<Byte>)
    ensures r.Got? ==> |r.rest| < |b|
  {
    if b == [] then Fail else Got(b[0], b[1..])
  }

  lemma AfterTag(t: Byte, x: Bytes, y: Bytes, rest: Bytes)
    ensures [t] + x + y + rest == [t] + (x + (y + rest)) && ([t] + x + y + rest)[1..] == x + (y + rest)
  {
  }

  // ----- strings -----

  function PutStrList(xs: seq<Bytes>): Bytes {
    PutList(Parts(PutBytes, xs))
  }

  lemma TextShrinks()
    ensures Shrinks(GetText)
  {
    hide GetBytes, Utf8;
  }

  function GetStrList(b: Bytes): (r: Read<seq<Bytes>>)
    ensures r.Got? ==> |r.value| < U32 && |r.rest| < |b|
  {
    TextShrinks();
    GetList(GetText, b)
  }

  predicate FitsStrs(xs: seq<Bytes>) {
    |xs| < U32 && forall x <- xs :: FitsText(x)
  }

  lemma ReadTextFits(b: Bytes)
    ensures GetText(b).Got? ==> FitsText(GetText(b).value)
  {
  }

  lemma StrListRoundTrip(xs: seq<Bytes>, rest: Bytes)
    requires FitsStrs(xs)
    ensures GetStrList(PutStrList(xs) + rest) == Got(xs, rest)
  {
    hide PutBytes, GetText, FitsText, PutList, GetList;
    forall i, r: Bytes | 0 <= i < |xs| ensures GetText(Parts(PutBytes, xs)[i] + r) == Got(xs[i], r) {
      TextRoundTrip(xs[i], r);
    }
    ListRoundTrip(GetText, xs, Parts(PutBytes, xs), rest);
  }

  lemma ReadStrListFits(b: Bytes)
    ensures GetStrList(b).Got? ==> FitsStrs(GetStrList(b).value)
  {
    hide GetText, FitsText, GetList;
    forall x: Bytes ensures GetText(x).Got? ==> FitsText(GetText(x).value) {
      ReadTextFits(x);
    }
    ListHolds(GetText, b, FitsText);
  }

  /** Strings always come back. */
  lemma StrListBack(b: Bytes)
    requires GetStrList(b).Got?
    ensures Back(b, PutStrList(GetStrList(b).value), GetStrList(b).rest, true)
  {
    hide Back, GetText, PutBytes, GetList, PutList, PlainList;
    var plain := (x: Bytes) => true;
    forall x: Bytes ensures GetText(x).Got? ==> Back(x, PutBytes(GetText(x).value), GetText(x).rest, plain(x)) {
      if GetText(x).Got? {
        TextBack(x);
      }
    }
    ListBack(GetText, PutBytes, plain, b);
    AlwaysPlain(GetText, plain, b);
  }

  lemma AlwaysPlain<T>(get: Bytes -> Read<T>, plain: Bytes -> bool, b: Bytes)
    requires forall x: Bytes :: plain(x)
    ensures PlainList(get, plain, b)
  {
    if GetU32(b).Got? {
      AllPlain(get, plain, GetU32(b).value, GetU32(b).rest);
    }
  }

  lemma {:induction false} AllPlain<T>(get: Bytes -> Read<T>, plain: Bytes -> bool, n: nat, b: Bytes)
    requires forall x: Bytes :: plain(x)
    ensures PlainMany(get, plain, n, b)
    decreases n
  {
    if n > 0 && get(b).Got? {
      AllPlain(get, plain, n - 1, get(b).rest);
    }
  }

  // ----- rows and guards -----

  const ROW_COL: Byte := 1
  const ROW_LIT: Byte := 2

  function PutRow(e: RowExpr): Bytes {
    match e case Col(i) => [ROW_COL] + PutU32(i) case Lit(v) => [ROW_LIT] + PutValue(v)
  }

  function GetRow(b: Bytes): (r: Read<RowExpr>)
    ensures r.Got? ==> |r.rest| < |b|
  {
    var (tag, t) :- GetTag(b);
    if tag == ROW_COL then (var (i, rest) :- GetU32(t); Got(Col(i), rest))
    else if tag == ROW_LIT then (var (v, rest) :- GetValue(t, 0); Got(Lit(v), rest))
    else Fail
  }

  predicate FitsRow(e: RowExpr) {
    match e case Col(i) => i < U32 case Lit(v) => FitsValue(v, 0)
  }

  lemma RowRoundTrip(e: RowExpr, rest: Bytes)
    requires FitsRow(e)
    ensures GetRow(PutRow(e) + rest) == Got(e, rest)
  {
    hide PutU32, GetU32, PutValue, GetValue, FitsValue;
    var b := PutRow(e) + rest;
    match e
    case Col(i) => U32RoundTrip(i, rest); assert b[1..] == PutU32(i) + rest;
    case Lit(v) => ValueRoundTrip(v, 0, rest); assert b[1..] == PutValue(v) + rest;
  }

  lemma ReadRowFits(b: Bytes)
    ensures GetRow(b).Got? ==> FitsRow(GetRow(b).value)
  {
    hide GetValue, FitsValue, IntAt;
    if b != [] {
      ReadValueFits(b[1..], 0);
    }
  }

  predicate PlainRow(b: Bytes) {
    b == [] || (b[0] == ROW_LIT ==> PlainValue(b[1..], 0))
  }

  lemma RowBack(b: Bytes)
    requires GetRow(b).Got?
    ensures Back(b, PutRow(GetRow(b).value), GetRow(b).rest, PlainRow(b))
  {
    hide Back, GetU32, PutU32, GetValue, PutValue, PlainValue;
    var t := b[1..];
    TagBack(b);
    if b[0] == ROW_COL {
      U32Back(t);
      BackThen(b, [b[0]], t, true, PutU32(GetU32(t).value), GetU32(t).rest, true);
    } else {
      ValueBack(t, 0);
      BackThen(b, [b[0]], t, true, PutValue(GetValue(t, 0).value), GetValue(t, 0).rest, PlainValue(t, 0));
    }
  }

  const PRED_EQ: Byte := 1
  const PRED_AND: Byte := 2

  function PutPred(p: PredExpr): Bytes {
    match p
    case Eq(x, y) => [PRED_EQ] + PutRow(x) + PutRow(y)
    case And(ps) => [PRED_AND] + PutPredList(ps)
  }

  function PutPredList(xs: seq<PredExpr>): Bytes {
    PutList(seq(|xs|, i requires 0 <= i < |xs| => PutPred(xs[i])))
  }

  function GetPred(b: Bytes, depth: nat): (r: Read<PredExpr>)
    ensures r.Got? ==> |r.rest| < |b|
    decreases |b|, 0
  {
    if depth >= MAX_IR_DEPTH then Fail else
    var (tag, t) :- GetTag(b);
    if tag == PRED_EQ then (
      var (x, t1) :- GetRow(t);
      var (y, t2) :- GetRow(t1);
      Got(Eq(x, y), t2))
    else if tag == PRED_AND then (
      var (ps, t1) :- GetPredList(t, depth + 1);
      Got(And(ps), t1))
    else Fail
  }

  /** The reader of predicates shorter than `limit`. */
  function PredReader(limit: nat, depth: nat): (get: Bytes -> Read<PredExpr>)
    ensures Shrinks(get)
    decreases limit, 1
  {
    (b: Bytes) => if |b| < limit then GetPred(b, depth) else Fail
  }

  function GetPredList(b: Bytes, depth: nat): (r: Read<seq<PredExpr>>)
    ensures r.Got? ==> |r.value| < U32 && |r.rest| < |b|
    decreases |b|, 2
  {
    GetList(PredReader(|b|, depth), b)
  }

  predicate FitsPred(p: PredExpr, depth: nat)
    decreases p
  {
    depth < MAX_IR_DEPTH &&
    match p
    case Eq(x, y) => FitsRow(x) && FitsRow(y)
    case And(ps) => |ps| < U32 && forall q <- ps :: FitsPred(q, depth + 1)
  }

  lemma {:induction false} PredRoundTrip(p: PredExpr, depth: nat, rest: Bytes)
    requires FitsPred(p, depth)
    ensures GetPred(PutPred(p) + rest, depth) == Got(p, rest)
    decreases p, 0
  {
    hide PutRow, GetRow, FitsRow, PutPredList, GetPredList;
    var b := PutPred(p) + rest;
    match p
    case Eq(x, y) =>
      RowRoundTrip(x, PutRow(y) + rest);
      RowRoundTrip(y, rest);
      AfterTag(PRED_EQ, PutRow(x), PutRow(y), rest);
    case And(ps) =>
      PredListRoundTrip(ps, depth + 1, rest);
      assert b[1..] == PutPredList(ps) + rest;
  }

  lemma {:induction false} ReadPredFits(b: Bytes, depth: nat)
    ensures GetPred(b, depth).Got? ==> FitsPred(GetPred(b, depth).value, depth)
    decreases |b|, 0
  {
    hide GetRow, FitsRow, GetPredList;
    if GetPred(b, depth).Got? {
      var t := b[1..];
      if b[0] == PRED_EQ {
        ReadRowFits(t);
        ReadRowFits(GetRow(t).rest);
      } else {
        ReadPredListFits(t, depth + 1);
      }
    }
  }

  /** Every literal of a guard is plain. */
  predicate PlainPred(b: Bytes, depth: nat)
    decreases |b|, 0
  {
    b == [] ||
    var t := b[1..];
    if b[0] == PRED_EQ then PlainRow(t) && (GetRow(t).Got? ==> PlainRow(GetRow(t).rest))
    else b[0] == PRED_AND ==> PlainPredList(t, depth + 1)
  }

  lemma {:induction false} PredBack(b: Bytes, depth: nat)
    requires GetPred(b, depth).Got?
    ensures Back(b, PutPred(GetPred(b, depth).value), GetPred(b, depth).rest, PlainPred(b, depth))
    decreases |b|, 0
  {
    hide Back, GetRow, PutRow, PlainRow, GetPredList, PutPredList, PlainPredList;
    var t := b[1..];
    TagBack(b);
    if b[0] == PRED_EQ {
      var x := GetRow(t);
      var y := GetRow(x.rest);
      RowBack(t);
      RowBack(x.rest);
      BackThen(b, [b[0]], t, true, PutRow(x.value), x.rest, PlainRow(t));
      BackThen(b, [b[0]] + PutRow(x.value), x.rest, PlainRow(t), PutRow(y.value), y.rest, PlainRow(x.rest));
    } else {
      PredListBack(t, depth + 1);
      var ps := GetPredList(t, depth + 1);
      BackThen(b, [b[0]], t, true, PutPredList(ps.value), ps.rest, PlainPredList(t, depth + 1));
    }
  }

  lemma {:induction false} PredListRoundTrip(xs: seq<PredExpr>, depth: nat, rest: Bytes)
    requires |xs| < U32 && forall x <- xs :: FitsPred(x, depth)
    ensures GetPredList(PutPredList(xs) + rest, depth) == Got(xs, rest)
    decreases xs, 2
  {
    hide PutPred, GetPred, FitsPred, PutList, GetList;
    var parts := seq(|xs|, i requires 0 <= i < |xs| => PutPred(xs[i]));
    var b := PutPredList(xs) + rest;
    forall i, r: Bytes | 0 <= i < |xs| && |parts[i] + r| < |b|
      ensures PredReader(|b|, depth)(parts[i] + r) == Got(xs[i], r) {
      PredRoundTrip(xs[i], depth, r);
    }
    ListRoundTrip(PredReader(|b|, depth), xs, parts, rest);
  }

  lemma {:induction false} ReadPredListFits(b: Bytes, depth: nat)
    ensures GetPredList(b, depth).Got? ==> forall x <- GetPredList(b, depth).value :: FitsPred(x, depth)
    decreases |b|, 1
  {
    hide GetPred, FitsPred, GetList;
    var get := PredReader(|b|, depth);
    var fits := (x: PredExpr) => FitsPred(x, depth);
    forall x: Bytes ensures get(x).Got? ==> fits(get(x).value) {
      if |x| < |b| {
        ReadPredFits(x, depth);
      }
    }
    ListHolds(get, b, fits);
  }

  function PlainPredTest(limit: nat, depth: nat): Bytes -> bool
    decreases limit, 1
  {
    (b: Bytes) => |b| < limit ==> PlainPred(b, depth)
  }

  predicate PlainPredList(b: Bytes, depth: nat)
    decreases |b|, 2
  {
    PlainList(PredReader(|b|, depth), PlainPredTest(|b|, depth), b)
  }

  lemma {:induction false} PredListBack(b: Bytes, depth: nat)
    requires GetPredList(b, depth).Got?
    ensures Back(b, PutPredList(GetPredList(b, depth).value), GetPredList(b, depth).rest, PlainPredList(b, depth))
    decreases |b|, 1
  {
    hide Back, GetPred, PutPred, PlainPred, GetList, PutList, PlainList;
    var get, plain := PredReader(|b|, depth), PlainPredTest(|b|, depth);
    forall x: Bytes ensures get(x).Got? ==> Back(x, PutPred(get(x).value), get(x).rest, plain(x)) {
      if get(x).Got? {
        PredBack(x, depth);
      }
    }
    ListBack(get, PutPred, plain, b);
    var xs := GetPredList(b, depth).value;
    assert Parts(PutPred, xs) == seq(|xs|, i requires 0 <= i < |xs| => PutPred(xs[i]));
  }

  // ----- expressions -----

  const VALUE_LOCAL: Byte := 1
  const VALUE_LITERAL: Byte := 2
  const VALUE_INTRINSIC: Byte := 3

  function PutTerm(e: ValueExpr): Bytes {
    match e
    case Local(s) => [VALUE_LOCAL] + PutBytes(s)
    case Literal(v) => [VALUE_LITERAL] + PutValue(v)
    case Intrinsic(s, args) => [VALUE_INTRINSIC] + PutBytes(s) + PutTermList(args)
  }

  function PutTermList(xs: seq<ValueExpr>): Bytes {
    PutList(seq(|xs|, i requires 0 <= i < |xs| => PutTerm(xs[i])))
  }

  function GetTerm(b: Bytes, depth: nat): (r: Read<ValueExpr>)
    ensures r.Got? ==> |r.rest| < |b|
    decreases |b|, 0
  {
    if depth >= MAX_IR_DEPTH then Fail else
    var (tag, t) :- GetTag(b);
    if tag == VALUE_LOCAL then (var (s, t1) :- GetText(t); Got(Local(s), t1))
    else if tag == VALUE_LITERAL then (var (v, t1) :- GetValue(t, 0); Got(Literal(v), t1))
    else if tag == VALUE_INTRINSIC then (
      var (s, t1) :- GetText(t);
      var (args, t2) :- GetTermList(t1, depth + 1);
      Got(Intrinsic(s, args), t2))
    else Fail
  }

  /** The reader of value expressions shorter than `limit`. */
  function TermReader(limit: nat, depth: nat): (get: Bytes -> Read<ValueExpr>)
    ensures Shrinks(get)
    decreases limit, 1
  {
    (b: Bytes) => if |b| < limit then GetTerm(b, depth) else Fail
  }

  function GetTermList(b: Bytes, depth: nat): (r: Read<seq<ValueExpr>>)
    ensures r.Got? ==> |r.value| < U32 && |r.rest| < |b|
    decreases |b|, 2
  {
    GetList(TermReader(|b|, depth), b)
  }

  predicate FitsTerm(e: ValueExpr, depth: nat)
    decreases e
  {
    depth < MAX_IR_DEPTH &&
    match e
    case Local(s) => FitsText(s)
    case Literal(v) => FitsValue(v, 0)
    case Intrinsic(s, args) => FitsText(s) && |args| < U32 && forall a <- args :: FitsTerm(a, depth + 1)
  }

  lemma {:induction false} TermRoundTrip(e: ValueExpr, depth: nat, rest: Bytes)
    requires FitsTerm(e, depth)
    ensures GetTerm(PutTerm(e) + rest, depth) == Got(e, rest)
    decreases e, 0
  {
    hide PutBytes, GetText, FitsText, PutValue, GetValue, FitsValue, PutTermList, GetTermList;
    var b := PutTerm(e) + rest;
    match e
    case Local(s) => TextRoundTrip(s, rest); assert b[1..] == PutBytes(s) + rest;
    case Literal(v) => ValueRoundTrip(v, 0, rest); assert b[1..] == PutValue(v) + rest;
    case Intrinsic(s, args) =>
      TextRoundTrip(s, PutTermList(args) + rest);
      TermListRoundTrip(args, depth + 1, rest);
      AfterTag(VALUE_INTRINSIC, PutBytes(s), PutTermList(args), rest);
  }

  lemma {:induction false} ReadTermFits(b: Bytes, depth: nat)
    ensures GetTerm(b, depth).Got? ==> FitsTerm(GetTerm(b, depth).value, depth)
    decreases |b|, 0
  {
    hide GetText, FitsText, GetValue, FitsValue, GetTermList;
    if GetTerm(b, depth).Got? {
      var t := b[1..];
      if b[0] == VALUE_LITERAL {
        ReadValueFits(t, 0);
      } else {
        ReadTextFits(t);
        if b[0] == VALUE_INTRINSIC {
          ReadTermListFits(GetText(t).rest, depth + 1);
        }
      }
    }
  }

  predicate PlainTerm(b: Bytes, depth: nat)
    decreases |b|, 0
  {
    b == [] ||
    var t := b[1..];
    if b[0] == VALUE_LITERAL then PlainValue(t, 0)
    else b[0] == VALUE_INTRINSIC && GetText(t).Got? ==> PlainTermList(GetText(t).rest, depth + 1)
  }

  lemma {:induction false} TermBack(b: Bytes, depth: nat)
    requires GetTerm(b, depth).Got?
    ensures Back(b, PutTerm(GetTerm(b, depth).value), GetTerm(b, depth).rest, PlainTerm(b, depth))
    decreases |b|, 0
  {
    hide Back, GetText, PutBytes, GetValue, PutValue, PlainValue, GetTermList, PutTermList, PlainTermList;
    var t := b[1..];
    TagBack(b);
    if b[0] == VALUE_LITERAL {
      ValueBack(t, 0);
      BackThen(b, [b[0]], t, true, PutValue(GetValue(t, 0).value), GetValue(t, 0).rest, PlainValue(t, 0));
    } else {
      TextBack(t);
      var s := GetText(t);
      BackThen(b, [b[0]], t, true, PutBytes(s.value), s.rest, true);
      if b[0] == VALUE_INTRINSIC {
        TermListBack(s.rest, depth + 1);
        var args := GetTermList(s.rest, depth + 1);
        BackThen(b, [b[0]] + PutBytes(s.value), s.rest, true, PutTermList(args.value), args.rest,
          PlainTermList(s.rest, depth + 1));
      }
    }
  }

  lemma {:induction false} TermListRoundTrip(xs: seq<ValueExpr>, depth: nat, rest: Bytes)
    requires |xs| < U32 && forall x <- xs :: FitsTerm(x, depth)
    ensures GetTermList(PutTermList(xs) + rest, depth) == Got(xs, rest)
    decreases xs, 2
  {
    hide PutTerm, GetTerm, FitsTerm, PutList, GetList;
    var parts := seq(|xs|, i requires 0 <= i < |xs| => PutTerm(xs[i]));
    var b := PutTermList(xs) + rest;
    forall i, r: Bytes | 0 <= i < |xs| && |parts[i] + r| < |b|
      ensures TermReader(|b|, depth)(parts[i] + r) == Got(xs[i], r) {
      TermRoundTrip(xs[i], depth, r);
    }
    ListRoundTrip(TermReader(|b|, depth), xs, parts, rest);
  }

  lemma {:induction false} ReadTermListFits(b: Bytes, depth: nat)
    ensures GetTermList(b, depth).Got? ==> forall x <- GetTermList(b, depth).value :: FitsTerm(x, depth)
    decreases |b|, 1
  {
    hide GetTerm, FitsTerm, GetList;
    var get := TermReader(|b|, depth);
    var fits := (x: ValueExpr) => FitsTerm(x, depth);
    forall x: Bytes ensures get(x).Got? ==> fits(get(x).value) {
      if |x| < |b| {
        ReadTermFits(x, depth);
      }
    }
    ListHolds(get, b, fits);
  }

  function PlainTermTest(limit: nat, depth: nat): Bytes -> bool
    decreases limit, 1
  {
    (b: Bytes) => |b| < limit ==> PlainTerm(b, depth)
  }

  predicate PlainTermList(b: Bytes, depth: nat)
    decreases |b|, 2
  {
    PlainList(TermReader(|b|, depth), PlainTermTest(|b|, depth), b)
  }

  lemma {:induction false} TermListBack(b: Bytes, depth: nat)
    requires GetTermList(b, depth).Got?
    ensures Back(b, PutTermList(GetTermList(b, depth).value), GetTermList(b, depth).rest, PlainTermList(b, depth))
    decreases |b|, 1
  {
    hide Back, GetTerm, PutTerm, PlainTerm, GetList, PutList, PlainList;
    var get, plain := TermReader(|b|, depth), PlainTermTest(|b|, depth);
    forall x: Bytes ensures get(x).Got? ==> Back(x, PutTerm(get(x).value), get(x).rest, plain(x)) {
      if get(x).Got? {
        TermBack(x, depth);
      }
    }
    ListBack(get, PutTerm, plain, b);
    var xs := GetTermList(b, depth).value;
    assert Parts(PutTerm, xs) == seq(|xs|, i requires 0 <= i < |xs| => PutTerm(xs[i]));
  }

  function CompareTag(op: CompareOp): Byte {
    match op case CmpEq => 0 case CmpNe => 1 case CmpLt => 2 case CmpLe => 3 case CmpGt => 4 case CmpGe => 5
  }

  function GetCompare(b: Bytes): (r: Read<CompareOp>)
    ensures r.Got? ==> |r.rest| < |b|
  {
    var (tag, t) :- GetTag(b);
    match tag
    case 0 => Got(CmpEq, t)
    case 1 => Got(CmpNe, t)
    case 2 => Got(CmpLt, t)
    case 3 => Got(CmpLe, t)
    case 4 => Got(CmpGt, t)
    case 5 => Got(CmpGe, t)
    case _ => Fail
  }

  lemma CompareBack(b: Bytes)
    requires GetCompare(b).Got?
    ensures Back(b, [CompareTag(GetCompare(b).value)], GetCompare(b).rest, true)
  {
    TagBack(b);
  }

  const BOOL_VALUE: Byte := 1
  const BOOL_COMPARE: Byte := 2
  const BOOL_NOT: Byte := 3
  const BOOL_AND: Byte := 4
  const BOOL_OR: Byte := 5

  function PutBool(e: BoolExpr): Bytes {
    match e
    case Truth(v) => [BOOL_VALUE] + PutTerm(v)
    case Compare(op, l, r) => [BOOL_COMPARE] + [CompareTag(op)] + PutTerm(l) + PutTerm(r)
    case Not(x) => [BOOL_NOT] + PutBool(x)
    case Both(l, r) => [BOOL_AND] + PutBool(l) + PutBool(r)
    case Either(l, r) => [BOOL_OR] + PutBool(l) + PutBool(r)
  }

  function GetBool(b: Bytes, depth: nat): (r: Read<BoolExpr>)
    ensures r.Got? ==> |r.rest| < |b|
    decreases |b|
  {
    if depth >= MAX_IR_DEPTH then Fail else
    var (tag, t) :- GetTag(b);
    if tag == BOOL_VALUE then (var (v, t1) :- GetTerm(t, depth + 1); Got(Truth(v), t1))
    else if tag == BOOL_COMPARE then (
      var (op, t1) :- GetCompare(t);
      var (l, t2) :- GetTerm(t1, depth + 1);
      var (r, t3) :- GetTerm(t2, depth + 1);
      Got(Compare(op, l, r), t3))
    else if tag == BOOL_NOT then (var (x, t1) :- GetBool(t, depth + 1); Got(Not(x), t1))
    else if tag == BOOL_AND then (
      var (l, t1) :- GetBool(t, depth + 1);
      var (r, t2) :- GetBool(t1, depth + 1);
      Got(Both(l, r), t2))
    else if tag == BOOL_OR then (
      var (l, t1) :- GetBool(t, depth + 1);
      var (r, t2) :- GetBool(t1, depth + 1);
      Got(Either(l, r), t2))
    else Fail
  }

  predicate FitsBool(e: BoolExpr, depth: nat) {
    depth < MAX_IR_DEPTH &&
    match e
    case Truth(v) => FitsTerm(v, depth + 1)
    case Compare(_, l, r) => FitsTerm(l, depth + 1) && FitsTerm(r, depth + 1)
    case Not(x) => FitsBool(x, depth + 1)
    case Both(l, r) => FitsBool(l, depth + 1) && FitsBool(r, depth + 1)
    case Either(l, r) => FitsBool(l, depth + 1) && FitsBool(r, depth + 1)
  }

  lemma CompareRoundTrip(op: CompareOp, rest: Bytes)
    ensures GetCompare([CompareTag(op)] + rest) == Got(op, rest)
  {
  }

  lemma ComparisonRoundTrip(op: CompareOp, l: ValueExpr, r: ValueExpr, depth: nat, rest: Bytes)
    requires FitsBool(Compare(op, l, r), depth)
    ensures GetBool(PutBool(Compare(op, l, r)) + rest, depth) == Got(Compare(op, l, r), rest)
  {
    hide PutTerm, GetTerm, FitsTerm, GetCompare, CompareTag;
    var b := PutBool(Compare(op, l, r)) + rest;
    var operands := PutTerm(l) + (PutTerm(r) + rest);
    assert b[1..] == [CompareTag(op)] + operands;
    CompareRoundTrip(op, operands);
    TermRoundTrip(l, depth + 1, PutTerm(r) + rest);
    TermRoundTrip(r, depth + 1, rest);
  }

  /** Reading a connective, once its two sides are known to read back. */
  lemma ConnectiveReads(b: Bytes, depth: nat, l: BoolExpr, middle: Bytes, r: BoolExpr, rest: Bytes)
    requires depth < MAX_IR_DEPTH && b != [] && (b[0] == BOOL_AND || b[0] == BOOL_OR)
    requires GetBool(b[1..], depth + 1) == Got(l, middle) && GetBool(middle, depth + 1) == Got(r, rest)
    ensures GetBool(b, depth) == Got(if b[0] == BOOL_AND then Both(l, r) else Either(l, r), rest)
  {
    hide GetTerm, GetCompare;
  }

  lemma ConnectiveShape(e: BoolExpr, l: BoolExpr, r: BoolExpr, rest: Bytes)
    requires e == Both(l, r) || e == Either(l, r)
    ensures PutBool(e) + rest == [if e.Both? then BOOL_AND else BOOL_OR] + (PutBool(l) + (PutBool(r) + rest))
  {
    hide PutTerm;
    var tag := if e.Both? then BOOL_AND else BOOL_OR;
    var x, y := PutBool(l), PutBool(r);
    assert PutBool(e) == [tag] + x + y;
    hide PutBool;
    AfterTag(tag, x, y, rest);
  }

  lemma TruthRoundTrip(v: ValueExpr, depth: nat, rest: Bytes)
    requires FitsBool(Truth(v), depth)
    ensures GetBool(PutBool(Truth(v)) + rest, depth) == Got(Truth(v), rest)
  {
    hide PutTerm, GetTerm, FitsTerm, GetCompare;
    TermRoundTrip(v, depth + 1, rest);
    assert (PutBool(Truth(v)) + rest)[1..] == PutTerm(v) + rest;
  }

  lemma NegationReads(x: BoolExpr, depth: nat, rest: Bytes)
    requires depth < MAX_IR_DEPTH && GetBool(PutBool(x) + rest, depth + 1) == Got(x, rest)
    ensures GetBool(PutBool(Not(x)) + rest, depth) == Got(Not(x), rest)
  {
    hide PutTerm, GetTerm, GetCompare;
    assert (PutBool(Not(x)) + rest)[1..] == PutBool(x) + rest;
  }

  lemma {:induction false} BoolRoundTrip(e: BoolExpr, depth: nat, rest: Bytes)
    requires FitsBool(e, depth)
    ensures GetBool(PutBool(e) + rest, depth) == Got(e, rest)
    decreases e
  {
    hide GetBool, PutTerm, FitsTerm;
    match e
    case Truth(v) => TruthRoundTrip(v, depth, rest);
    case Compare(op, l, r) => ComparisonRoundTrip(op, l, r, depth, rest);
    case Not(x) =>
      BoolRoundTrip(x, depth + 1, rest);
      NegationReads(x, depth, rest);
    case Both(l, r) =>
      BoolRoundTrip(l, depth + 1, PutBool(r) + rest);
      BoolRoundTrip(r, depth + 1, rest);
      ConnectiveShape(e, l, r, rest);
      ConnectiveReads(PutBool(e) + rest, depth, l, PutBool(r) + rest, r, rest);
    case Either(l, r) =>
      BoolRoundTrip(l, depth + 1, PutBool(r) + rest);
      BoolRoundTrip(r, depth + 1, rest);
      ConnectiveShape(e, l, r, rest);
      ConnectiveReads(PutBool(e) + rest, depth, l, PutBool(r) + rest, r, rest);
  }

  lemma {:induction false} ReadBoolFits(b: Bytes, depth: nat)
    ensures GetBool(b, depth).Got? ==> FitsBool(GetBool(b, depth).value, depth)
    decreases |b|
  {
    hide GetTerm, FitsTerm;
    if GetBool(b, depth).Got? {
      var t := b[1..];
      if b[0] == BOOL_VALUE {
        ReadTermFits(t, depth + 1);
      } else if b[0] == BOOL_COMPARE {
        ReadTermFits(t[1..], depth + 1);
        ReadTermFits(GetTerm(t[1..], depth + 1).rest, depth + 1);
      } else {
        ReadBoolFits(t, depth + 1);
        if b[0] != BOOL_NOT {
          ReadBoolFits(GetBool(t, depth + 1).rest, depth + 1);
        }
      }
    }
  }

  predicate PlainBool(b: Bytes, depth: nat)
    decreases |b|
  {
    b == [] ||
    var t, d := b[1..], depth + 1;
    if b[0] == BOOL_VALUE then PlainTerm(t, d)
    else if b[0] == BOOL_COMPARE then GetCompare(t).Got? ==> PlainTerms(GetCompare(t).rest, d)
    else if b[0] == BOOL_NOT then PlainBool(t, d)
    else b[0] == BOOL_AND || b[0] == BOOL_OR ==>
      PlainBool(t, d) && (GetBool(t, d).Got? ==> PlainBool(GetBool(t, d).rest, d))
  }

  /** Two operands. */
  predicate PlainTerms(b: Bytes, depth: nat) {
    PlainTerm(b, depth) && (GetTerm(b, depth).Got? ==> PlainTerm(GetTerm(b, depth).rest, depth))
  }

  lemma ComparisonBack(b: Bytes, depth: nat)
    requires GetBool(b, depth).Got? && b[0] == BOOL_COMPARE
    ensures Back(b, PutBool(GetBool(b, depth).value), GetBool(b, depth).rest, PlainBool(b, depth))
  {
    hide Back, GetTerm, PutTerm, PlainTerm, GetCompare, CompareTag;
    var t, d := b[1..], depth + 1;
    var op := GetCompare(t);
    var l := GetTerm(op.rest, d);
    var r := GetTerm(l.rest, d);
    TagBack(b);
    CompareBack(t);
    TermBack(op.rest, d);
    TermBack(l.rest, d);
    var head := [b[0]] + [CompareTag(op.value)];
    BackThen(b, [b[0]], t, true, [CompareTag(op.value)], op.rest, true);
    BackThen(b, head, op.rest, true, PutTerm(l.value), l.rest, PlainTerm(op.rest, d));
    BackThen(b, head + PutTerm(l.value), l.rest, PlainTerm(op.rest, d), PutTerm(r.value), r.rest, PlainTerm(l.rest, d));
  }

  lemma {:induction false} BoolBack(b: Bytes, depth: nat)
    requires GetBool(b, depth).Got?
    ensures Back(b, PutBool(GetBool(b, depth).value), GetBool(b, depth).rest, PlainBool(b, depth))
    decreases |b|
  {
    hide Back, GetTerm, PutTerm, PlainTerm, GetCompare, PlainTerms;
    var t, d := b[1..], depth + 1;
    TagBack(b);
    if b[0] == BOOL_VALUE {
      TermBack(t, d);
      BackThen(b, [b[0]], t, true, PutTerm(GetTerm(t, d).value), GetTerm(t, d).rest, PlainTerm(t, d));
    } else if b[0] == BOOL_COMPARE {
      ComparisonBack(b, depth);
    } else {
      var l := GetBool(t, d);
      BoolBack(t, d);
      BackThen(b, [b[0]], t, true, PutBool(l.value), l.rest, PlainBool(t, d));
      if b[0] != BOOL_NOT {
        var r := GetBool(l.rest, d);
        BoolBack(l.rest, d);
        BackThen(b, [b[0]] + PutBool(l.value), l.rest, PlainBool(t, d), PutBool(r.value), r.rest, PlainBool(l.rest, d));
      }
    }
  }

  const EXPR_VALUE: Byte := 1
  const EXPR_BOOL: Byte := 2

  function PutExpr(e: ExprIr): Bytes {
    match e case OfValue(v) => [EXPR_VALUE] + PutTerm(v) case OfBool(x) => [EXPR_BOOL] + PutBool(x)
  }

  function GetExpr(b: Bytes, depth: nat): (r: Read<ExprIr>)
    ensures r.Got? ==> |r.rest| < |b|
  {
    if depth >= MAX_IR_DEPTH then Fail else
    var (tag, t) :- GetTag(b);
    if tag == EXPR_VALUE then (var (v, t1) :- GetTerm(t, depth + 1); Got(OfValue(v), t1))
    else if tag == EXPR_BOOL then (var (x, t1) :- GetBool(t, depth + 1); Got(OfBool(x), t1))
    else Fail
  }

  predicate FitsExpr(e: ExprIr, depth: nat) {
    depth < MAX_IR_DEPTH && match e case OfValue(v) => FitsTerm(v, depth + 1) case OfBool(x) => FitsBool(x, depth + 1)
  }

  lemma ExprRoundTrip(e: ExprIr, depth: nat, rest: Bytes)
    requires FitsExpr(e, depth)
    ensures GetExpr(PutExpr(e) + rest, depth) == Got(e, rest)
  {
    hide PutTerm, GetTerm, FitsTerm, PutBool, GetBool, FitsBool;
    var b := PutExpr(e) + rest;
    match e
    case OfValue(v) => TermRoundTrip(v, depth + 1, rest); assert b[1..] == PutTerm(v) + rest;
    case OfBool(x) => BoolRoundTrip(x, depth + 1, rest); assert b[1..] == PutBool(x) + rest;
  }

  lemma ReadExprFits(b: Bytes, depth: nat)
    ensures GetExpr(b, depth).Got? ==> FitsExpr(GetExpr(b, depth).value, depth)
  {
    hide GetTerm, FitsTerm, GetBool, FitsBool;
    if b != [] {
      ReadTermFits(b[1..], depth + 1);
      ReadBoolFits(b[1..], depth + 1);
    }
  }

  predicate PlainExpr(b: Bytes, depth: nat) {
    if b == [] then true
    else if b[0] == EXPR_VALUE then PlainTerm(b[1..], depth + 1)
    else b[0] == EXPR_BOOL ==> PlainBool(b[1..], depth + 1)
  }

  lemma ExprBack(b: Bytes, depth: nat)
    requires GetExpr(b, depth).Got?
    ensures Back(b, PutExpr(GetExpr(b, depth).value), GetExpr(b, depth).rest, PlainExpr(b, depth))
  {
    hide Back, GetTerm, PutTerm, PlainTerm, GetBool, PutBool, PlainBool;
    var t, d := b[1..], depth + 1;
    TagBack(b);
    if b[0] == EXPR_VALUE {
      TermBack(t, d);
      BackThen(b, [b[0]], t, true, PutTerm(GetTerm(t, d).value), GetTerm(t, d).rest, PlainTerm(t, d));
    } else {
      BoolBack(t, d);
      BackThen(b, [b[0]], t, true, PutBool(GetBool(t, d).value), GetBool(t, d).rest, PlainBool(t, d));
    }
  }

  function ExprReader(depth: nat): (get: Bytes -> Read<ExprIr>)
    ensures Shrinks(get)
  {
    (b: Bytes) => GetExpr(b, depth)
  }

  function PutExprList(xs: seq<ExprIr>): Bytes {
    PutList(Parts(PutExpr, xs))
  }

  function GetExprList(b: Bytes, depth: nat): (r: Read<seq<ExprIr>>)
    ensures r.Got? ==> |r.value| < U32 && |r.rest| < |b|
  {
    GetList(ExprReader(depth), b)
  }

  predicate FitsExprs(xs: seq<ExprIr>, depth: nat) {
    |xs| < U32 && forall x <- xs :: FitsExpr(x, depth)
  }

  lemma ExprListRoundTrip(xs: seq<ExprIr>, depth: nat, rest: Bytes)
    requires FitsExprs(xs, depth)
    ensures GetExprList(PutExprList(xs) + rest, depth) == Got(xs, rest)
  {
    hide PutExpr, GetExpr, FitsExpr, PutList, GetList;
    forall i, r: Bytes | 0 <= i < |xs| ensures ExprReader(depth)(Parts(PutExpr, xs)[i] + r) == Got(xs[i], r) {
      ExprRoundTrip(xs[i], depth, r);
    }
    ListRoundTrip(ExprReader(depth), xs, Parts(PutExpr, xs), rest);
  }

  lemma ReadExprListFits(b: Bytes, depth: nat)
    ensures GetExprList(b, depth).Got? ==> FitsExprs(GetExprList(b, depth).value, depth)
  {
    hide GetExpr, FitsExpr, GetList;
    var fits := (x: ExprIr) => FitsExpr(x, depth);
    forall x: Bytes ensures ExprReader(depth)(x).Got? ==> fits(ExprReader(depth)(x).value) {
      ReadExprFits(x, depth);
    }
    ListHolds(ExprReader(depth), b, fits);
  }

  function PlainExprTest(depth: nat): Bytes -> bool {
    (b: Bytes) => PlainExpr(b, depth)
  }

  predicate PlainExprList(b: Bytes, depth: nat) {
    PlainList(ExprReader(depth), PlainExprTest(depth), b)
  }

  lemma ExprListBack(b: Bytes, depth: nat)
    requires GetExprList(b, depth).Got?
    ensures Back(b, PutExprList(GetExprList(b, depth).value), GetExprList(b, depth).rest, PlainExprList(b, depth))
  {
    hide Back, GetExpr, PutExpr, PlainExpr, GetList, PutList, PlainList;
    var get, plain := ExprReader(depth), PlainExprTest(depth);
    forall x: Bytes ensures get(x).Got? ==> Back(x, PutExpr(get(x).value), get(x).rest, plain(x)) {
      if get(x).Got? {
        ExprBack(x, depth);
      }
    }
    ListBack(get, PutExpr, plain, b);
  }

  // ----- operations -----

  const FIND_MATCH: Byte := 1
  const FIND_BIND: Byte := 2
  const FIND_MATCH_BIND: Byte := 3

  function PutFindArg(a: FindArg): Bytes {
    match a
    case Match(e) => [FIND_MATCH] + PutExpr(e)
    case Bind(s) => [FIND_BIND] + PutBytes(s)
    case MatchBind(e, s) => [FIND_MATCH_BIND] + PutExpr(e) + PutBytes(s)
  }

  function GetFindArg(b: Bytes, depth: nat): (r: Read<FindArg>)
    ensures r.Got? ==> |r.rest| < |b|
  {
    var (tag, t) :- GetTag(b);
    if tag == FIND_MATCH then (var (e, t1) :- GetExpr(t, depth); Got(Match(e), t1))
    else if tag == FIND_BIND then (var (s, t1) :- GetText(t); Got(Bind(s), t1))
    else if tag == FIND_MATCH_BIND then (
      var (e, t1) :- GetExpr(t, depth);
      var (s, t2) :- GetText(t1);
      Got(MatchBind(e, s), t2))
    else Fail
  }

  predicate FitsFindArg(a: FindArg, depth: nat) {
    match a
    case Match(e) => FitsExpr(e, depth)
    case Bind(s) => FitsText(s)
    case MatchBind(e, s) => FitsExpr(e, depth) && FitsText(s)
  }

  lemma FindArgRoundTrip(a: FindArg, depth: nat, rest: Bytes)
    requires FitsFindArg(a, depth)
    ensures GetFindArg(PutFindArg(a) + rest, depth) == Got(a, rest)
  {
    hide PutExpr, GetExpr, FitsExpr, PutBytes, GetText, FitsText;
    var b := PutFindArg(a) + rest;
    match a
    case Match(e) => ExprRoundTrip(e, depth, rest); assert b[1..] == PutExpr(e) + rest;
    case Bind(s) => TextRoundTrip(s, rest); assert b[1..] == PutBytes(s) + rest;
    case MatchBind(e, s) =>
      ExprRoundTrip(e, depth, PutBytes(s) + rest);
      TextRoundTrip(s, rest);
      AfterTag(FIND_MATCH_BIND, PutExpr(e), PutBytes(s), rest);
  }

  lemma ReadFindArgFits(b: Bytes, depth: nat)
    ensures GetFindArg(b, depth).Got? ==> FitsFindArg(GetFindArg(b, depth).value, depth)
  {
    hide GetExpr, FitsExpr, GetText, FitsText;
    if GetFindArg(b, depth).Got? {
      var t := b[1..];
      ReadExprFits(t, depth);
      ReadTextFits(t);
      if b[0] == FIND_MATCH_BIND {
        ReadTextFits(GetExpr(t, depth).rest);
      }
    }
  }

  predicate PlainFindArg(b: Bytes, depth: nat) {
    b == [] || (b[0] == FIND_MATCH || b[0] == FIND_MATCH_BIND ==> PlainExpr(b[1..], depth))
  }

  lemma FindArgBack(b: Bytes, depth: nat)
    requires GetFindArg(b, depth).Got?
    ensures Back(b, PutFindArg(GetFindArg(b, depth).value), GetFindArg(b, depth).rest, PlainFindArg(b, depth))
  {
    hide Back, GetExpr, PutExpr, PlainExpr, GetText, PutBytes;
    var t := b[1..];
    TagBack(b);
    if b[0] == FIND_BIND {
      TextBack(t);
      BackThen(b, [b[0]], t, true, PutBytes(GetText(t).value), GetText(t).rest, true);
    } else {
      var e := GetExpr(t, depth);
      ExprBack(t, depth);
      BackThen(b, [b[0]], t, true, PutExpr(e.value), e.rest, PlainExpr(t, depth));
      if b[0] == FIND_MATCH_BIND {
        TextBack(e.rest);
        var s := GetText(e.rest);
        BackThen(b, [b[0]] + PutExpr(e.value), e.rest, PlainExpr(t, depth), PutBytes(s.value), s.rest, true);
      }
    }
  }

  function FindArgReader(depth: nat): (get: Bytes -> Read<FindArg>)
    ensures Shrinks(get)
  {
    (b: Bytes) => GetFindArg(b, depth)
  }

  function PutFindArgList(xs: seq<FindArg>): Bytes {
    PutList(Parts(PutFindArg, xs))
  }

  function GetFindArgList(b: Bytes, depth: nat): (r: Read<seq<FindArg>>)
    ensures r.Got? ==> |r.value| < U32 && |r.rest| < |b|
  {
    GetList(FindArgReader(depth), b)
  }

  predicate FitsFindArgs(xs: seq<FindArg>, depth: nat) {
    |xs| < U32 && forall x <- xs :: FitsFindArg(x, depth)
  }

  lemma FindArgListRoundTrip(xs: seq<FindArg>, depth: nat, rest: Bytes)
    requires FitsFindArgs(xs, depth)
    ensures GetFindArgList(PutFindArgList(xs) + rest, depth) == Got(xs, rest)
  {
    hide PutFindArg, GetFindArg, FitsFindArg, PutList, GetList;
    forall i, r: Bytes | 0 <= i < |xs| ensures FindArgReader(depth)(Parts(PutFindArg, xs)[i] + r) == Got(xs[i], r) {
      FindArgRoundTrip(xs[i], depth, r);
    }
    ListRoundTrip(FindArgReader(depth), xs, Parts(PutFindArg, xs), rest);
  }

  lemma ReadFindArgListFits(b: Bytes, depth: nat)
    ensures GetFindArgList(b, depth).Got? ==> FitsFindArgs(GetFindArgList(b, depth).value, depth)
  {
    hide GetFindArg, FitsFindArg, GetList;
    var fits := (x: FindArg) => FitsFindArg(x, depth);
    forall x: Bytes ensures FindArgReader(depth)(x).Got? ==> fits(FindArgReader(depth)(x).value) {
      ReadFindArgFits(x, depth);
    }
    ListHolds(FindArgReader(depth), b, fits);
  }

  function PlainFindArgTest(depth: nat): Bytes -> bool {
    (b: Bytes) => PlainFindArg(b, depth)
  }

  predicate PlainFindArgList(b: Bytes, depth: nat) {
    PlainList(FindArgReader(depth), PlainFindArgTest(depth), b)
  }

  lemma FindArgListBack(b: Bytes, depth: nat)
    requires GetFindArgList(b, depth).Got?
    ensures Back(b, PutFindArgList(GetFindArgList(b, depth).value), GetFindArgList(b, depth).rest,
      PlainFindArgList(b, depth))
  {
    hide Back, GetFindArg, PutFindArg, PlainFindArg, GetList, PutList, PlainList;
    var get, plain := FindArgReader(depth), PlainFindArgTest(depth);
    forall x: Bytes ensures get(x).Got? ==> Back(x, PutFindArg(get(x).value), get(x).rest, plain(x)) {
      if get(x).Got? {
        FindArgBack(x, depth);
      }
    }
    ListBack(get, PutFindArg, plain, b);
  }

  const OP_RESOLVE: Byte := 1
  const OP_FIND: Byte := 2
  const OP_LET: Byte := 3
  const OP_IF: Byte := 4
  const OP_EXPECT: Byte := 5
  const OP_ASSERT: Byte := 6
  const OP_RETRACT: Byte := 7
  const OP_EMIT: Byte := 8
  const OP_CAPABILITY: Byte := 9

  function MatchTag(op: MatchOp): Byte {
    match op case Exact => 0 case Word => 1
  }

  function GetMatch(b: Bytes): (r: Read<MatchOp>)
    ensures r.Got? ==> |r.rest| < |b|
  {
    var (tag, t) :- GetTag(b);
    match tag case 0 => Got(Exact, t) case 1 => Got(Word, t) case _ => Fail
  }

  function PutRelationOp(tag: Byte, relation: Bytes, args: seq<ExprIr>): Bytes {
    [tag] + PutBytes(relation) + PutExprList(args)
  }

  function PutOp(op: Op): Bytes {
    match op
    case Resolve(view, args, column, how, rhs, dests) =>
      [OP_RESOLVE] + PutBytes(view) + PutExprList(args) + PutBytes(column) + [MatchTag(how)] + PutExpr(rhs) +
        PutStrList(dests)
    case Find(relation, finds) => [OP_FIND] + PutBytes(relation) + PutFindArgList(finds)
    case Let(local, value) => [OP_LET] + PutBytes(local) + PutExpr(value)
    case If(condition, then_, else_) => [OP_IF] + PutBool(condition) + PutOpList(then_) + PutOpList(else_)
    case Expect(relation, args) => PutRelationOp(OP_EXPECT, relation, args)
    case Assert(relation, args) => PutRelationOp(OP_ASSERT, relation, args)
    case Retract(relation, args) => PutRelationOp(OP_RETRACT, relation, args)
    case Emit(relation, args) => PutRelationOp(OP_EMIT, relation, args)
    case Invoke(capability, args, dests) =>
      [OP_CAPABILITY] + PutBytes(capability) + PutExprList(args) + PutStrList(dests)
  }

  function PutOpList(xs: seq<Op>): Bytes {
    PutList(seq(|xs|, i requires 0 <= i < |xs| => PutOp(xs[i])))
  }

  function GetRelationOp(b: Bytes, depth: nat): (r: Read<(Bytes, seq<ExprIr>)>)
    ensures r.Got? ==> |r.rest| < |b|
  {
    var (relation, t1) :- GetText(b);
    var (args, t2) :- GetExprList(t1, depth);
    Got((relation, args), t2)
  }

  function GetResolve(b: Bytes, depth: nat): (r: Read<Op>)
    ensures r.Got? ==> |r.rest| < |b|
  {
    var (view, t1) :- GetText(b);
    var (args, t2) :- GetExprList(t1, depth);
    var (column, t3) :- GetText(t2);
    var (how, t4) :- GetMatch(t3);
    var (rhs, t5) :- GetExpr(t4, depth);
    var (dests, t6) :- GetStrList(t5);
    Got(Resolve(view, args, column, how, rhs, dests), t6)
  }

  function GetOp(b: Bytes, depth: nat): (r: Read<Op>)
    ensures r.Got? ==> |r.rest| < |b|
    decreases |b|, 0
  {
    if depth >= MAX_IR_DEPTH then Fail else
    var (tag, t) :- GetTag(b);
    match tag
    case 1 => GetResolve(t, depth + 1)
    case 2 =>
      var (relation, t1) :- GetText(t);
      var (finds, t2) :- GetFindArgList(t1, depth + 1);
      Got(Find(relation, finds), t2)
    case 3 =>
      var (local, t1) :- GetText(t);
      var (value, t2) :- GetExpr(t1, depth + 1);
      Got(Let(local, value), t2)
    case 4 =>
      var (condition, t1) :- GetBool(t, depth + 1);
      var (then_, t2) :- GetOpList(t1, depth + 1);
      var (else_, t3) :- GetOpList(t2, depth + 1);
      Got(If(condition, then_, else_), t3)
    case 5 => var (x, t1) :- GetRelationOp(t, depth + 1); Got(Expect(x.0, x.1), t1)
    case 6 => var (x, t1) :- GetRelationOp(t, depth + 1); Got(Assert(x.0, x.1), t1)
    case 7 => var (x, t1) :- GetRelationOp(t, depth + 1); Got(Retract(x.0, x.1), t1)
    case 8 => var (x, t1) :- GetRelationOp(t, depth + 1); Got(Emit(x.0, x.1), t1)
    case 9 =>
      var (capability, t1) :- GetText(t);
      var (args, t2) :- GetExprList(t1, depth + 1);
      var (dests, t3) :- GetStrList(t2);
      Got(Invoke(capability, args, dests), t3)
    case _ => Fail
  }

  /** The reader of operations shorter than `limit`. */
  function OpReader(limit: nat, depth: nat): (get: Bytes -> Read<Op>)
    ensures Shrinks(get)
    decreases limit, 1
  {
    (b: Bytes) => if |b| < limit then GetOp(b, depth) else Fail
  }

  function GetOpList(b: Bytes, depth: nat): (r: Read<seq<Op>>)
    ensures r.Got? ==> |r.value| < U32 && |r.rest| < |b|
    decreases |b|, 2
  {
    GetList(OpReader(|b|, depth), b)
  }

  predicate FitsOp(op: Op, depth: nat)
    decreases op
  {
    depth < MAX_IR_DEPTH &&
    match op
    case Resolve(view, args, column, _, rhs, dests) =>
      FitsText(view) && FitsExprs(args, depth + 1) && FitsText(column) && FitsExpr(rhs, depth + 1) && FitsStrs(dests)
    case Find(relation, finds) => FitsText(relation) && FitsFindArgs(finds, depth + 1)
    case Let(local, value) => FitsText(local) && FitsExpr(value, depth + 1)
    case If(condition, then_, else_) =>
      && FitsBool(condition, depth + 1) && |then_| < U32 && |else_| < U32
      && (forall x <- then_ :: FitsOp(x, depth + 1)) && (forall x <- else_ :: FitsOp(x, depth + 1))
    case Expect(relation, args) => FitsText(relation) && FitsExprs(args, depth + 1)
    case Assert(relation, args) => FitsText(relation) && FitsExprs(args, depth + 1)
    case Retract(relation, args) => FitsText(relation) && FitsExprs(args, depth + 1)
    case Emit(relation, args) => FitsText(relation) && FitsExprs(args, depth + 1)
    case Invoke(capability, args, dests) => FitsText(capability) && FitsExprs(args, depth + 1) && FitsStrs(dests)
  }

  lemma RelationOpRoundTrip(relation: Bytes, args: seq<ExprIr>, depth: nat, rest: Bytes)
    requires FitsText(relation) && FitsExprs(args, depth)
    ensures GetRelationOp(PutBytes(relation) + (PutExprList(args) + rest), depth) == Got((relation, args), rest)
  {
    hide PutBytes, GetText, FitsText, PutExprList, GetExprList, FitsExprs;
    TextRoundTrip(relation, PutExprList(args) + rest);
    ExprListRoundTrip(args, depth, rest);
  }

  lemma ResolveRoundTrip(op: Op, depth: nat, rest: Bytes)
    requires op.Resolve? && FitsOp(op, depth)
    ensures GetOp(PutOp(op) + rest, depth) == Got(op, rest)
  {
    ResolveReads(op, depth, rest);
    hide PutBytes, PutExprList, PutExpr, PutStrList, GetResolve, MatchTag;
    assert (PutOp(op) + rest)[0] == OP_RESOLVE;
  }

  lemma ResolveReads(op: Op, depth: nat, rest: Bytes)
    requires op.Resolve? && FitsOp(op, depth)
    ensures GetResolve((PutOp(op) + rest)[1..], depth + 1) == Got(op, rest)
  {
    hide PutBytes, GetText, FitsText, PutExprList, GetExprList, FitsExprs, FitsExpr, PutExpr, GetExpr, PutStrList,
      GetStrList, FitsStrs;
    var r5 := PutStrList(op.dests) + rest;
    var r4 := PutExpr(op.rhs) + r5;
    var r3 := [MatchTag(op.how)] + r4;
    var r2 := PutBytes(op.column) + r3;
    var r1 := PutExprList(op.args) + r2;
    TextRoundTrip(op.view, r1);
    ExprListRoundTrip(op.args, depth + 1, r2);
    TextRoundTrip(op.column, r3);
    assert GetMatch(r3) == Got(op.how, r4);
    ExprRoundTrip(op.rhs, depth + 1, r5);
    StrListRoundTrip(op.dests, rest);
    SixAfterTag(PutBytes(op.view), PutExprList(op.args), PutBytes(op.column), [MatchTag(op.how)], PutExpr(op.rhs),
                PutStrList(op.dests), rest);
  }

  lemma SixAfterTag(a: Bytes, b: Bytes, c: Bytes, d: Bytes, e: Bytes, f: Bytes, rest: Bytes)
    ensures ([OP_RESOLVE] + a + b + c + d + e + f + rest)[1..] == a + (b + (c + (d + (e + (f + rest)))))
  {
    assert [OP_RESOLVE] + a + b + c + d + e + f + rest == [OP_RESOLVE] + (a + (b + (c + (d + (e + (f + rest))))));
  }

  lemma FindRoundTrip(op: Op, depth: nat, rest: Bytes)
    requires op.Find? && FitsOp(op, depth)
    ensures GetOp(PutOp(op) + rest, depth) == Got(op, rest)
  {
    hide PutBytes, GetText, FitsText, PutExprList, GetExprList, FitsExprs, FitsExpr, PutExpr, GetExpr, PutStrList,
      GetStrList, FitsStrs, PutBool, GetBool, FitsBool, PutFindArgList, GetFindArgList, FitsFindArgs, GetResolve,
      GetRelationOp, GetOpList, PutOpList;
    TextRoundTrip(op.relation, PutFindArgList(op.finds) + rest);
    FindArgListRoundTrip(op.finds, depth + 1, rest);
    AfterTag(OP_FIND, PutBytes(op.relation), PutFindArgList(op.finds), rest);
  }

  lemma LetRoundTrip(op: Op, depth: nat, rest: Bytes)
    requires op.Let? && FitsOp(op, depth)
    ensures GetOp(PutOp(op) + rest, depth) == Got(op, rest)
  {
    hide PutBytes, GetText, FitsText, PutExprList, GetExprList, FitsExprs, FitsExpr, PutExpr, GetExpr, PutStrList,
      GetStrList, FitsStrs, PutBool, GetBool, FitsBool, PutFindArgList, GetFindArgList, FitsFindArgs, GetResolve,
      GetRelationOp, GetOpList, PutOpList;
    TextRoundTrip(op.local, PutExpr(op.value) + rest);
    ExprRoundTrip(op.value, depth + 1, rest);
    AfterTag(OP_LET, PutBytes(op.local), PutExpr(op.value), rest);
  }

  lemma InvokeRoundTrip(op: Op, depth: nat, rest: Bytes)
    requires op.Invoke? && FitsOp(op, depth)
    ensures GetOp(PutOp(op) + rest, depth) == Got(op, rest)
  {
    hide PutBytes, GetText, FitsText, PutExprList, GetExprList, FitsExprs, FitsExpr, PutExpr, GetExpr, PutStrList,
      GetStrList, FitsStrs, PutBool, GetBool, FitsBool, PutFindArgList, GetFindArgList, FitsFindArgs, GetResolve,
      GetRelationOp, GetOpList, PutOpList;
    var r2 := PutStrList(op.dests) + rest;
    TextRoundTrip(op.capability, PutExprList(op.args) + r2);
    ExprListRoundTrip(op.args, depth + 1, r2);
    StrListRoundTrip(op.dests, rest);
    assert (PutOp(op) + rest)[1..] == PutBytes(op.capability) + (PutExprList(op.args) + r2);
  }

  lemma EffectRoundTrip(op: Op, depth: nat, rest: Bytes)
    requires (op.Expect? || op.Assert? || op.Retract? || op.Emit?) && FitsOp(op, depth)
    ensures GetOp(PutOp(op) + rest, depth) == Got(op, rest)
  {
    hide PutBytes, GetText, FitsText, PutExprList, GetExprList, FitsExprs, FitsExpr, PutExpr, GetExpr, PutStrList,
      GetStrList, FitsStrs, PutBool, GetBool, FitsBool, PutFindArgList, GetFindArgList, FitsFindArgs, GetResolve,
      GetRelationOp, GetOpList, PutOpList;
    RelationOpRoundTrip(op.relation, op.args, depth + 1, rest);
    AfterTag((PutOp(op) + rest)[0], PutBytes(op.relation), PutExprList(op.args), rest);
  }

  lemma {:induction false} IfRoundTrip(op: Op, depth: nat, rest: Bytes)
    requires op.If? && FitsOp(op, depth)
    ensures GetOp(PutOp(op) + rest, depth) == Got(op, rest)
    decreases op, 0
  {
    hide PutBytes, GetText, FitsText, PutExprList, GetExprList, FitsExprs, FitsExpr, PutExpr, GetExpr, PutStrList,
      GetStrList, FitsStrs, PutBool, GetBool, FitsBool, PutFindArgList, GetFindArgList, FitsFindArgs, GetResolve,
      GetRelationOp, GetOpList, PutOpList;
    var r2 := PutOpList(op.else_) + rest;
    var r1 := PutOpList(op.then_) + r2;
    BoolRoundTrip(op.condition, depth + 1, r1);
    OpListRoundTrip(op.then_, depth + 1, r2);
    OpListRoundTrip(op.else_, depth + 1, rest);
    assert (PutOp(op) + rest)[1..] == PutBool(op.condition) + r1;
  }

  lemma {:induction false} OpRoundTrip(op: Op, depth: nat, rest: Bytes)
    requires FitsOp(op, depth)
    ensures GetOp(PutOp(op) + rest, depth) == Got(op, rest)
    decreases op, 1
  {
    hide GetOp, PutOp, FitsOp;
    match op
    case Resolve(_, _, _, _, _, _) => ResolveRoundTrip(op, depth, rest);
    case Find(_, _) => FindRoundTrip(op, depth, rest);
    case Let(_, _) => LetRoundTrip(op, depth, rest);
    case If(_, _, _) => IfRoundTrip(op, depth, rest);
    case Invoke(_, _, _) => InvokeRoundTrip(op, depth, rest);
    case _ => EffectRoundTrip(op, depth, rest);
  }

  lemma ReadRelationOpFits(b: Bytes, depth: nat)
    ensures GetRelationOp(b, depth).Got? ==>
      FitsText(GetRelationOp(b, depth).value.0) && FitsExprs(GetRelationOp(b, depth).value.1, depth)
  {
    hide GetText, FitsText, GetExprList, FitsExprs;
    ReadTextFits(b);
    if GetText(b).Got? {
      ReadExprListFits(GetText(b).rest, depth);
    }
  }

  lemma ReadResolveFits(b: Bytes, depth: nat)
    requires depth < MAX_IR_DEPTH
    ensures GetResolve(b, depth + 1).Got? ==> FitsOp(GetResolve(b, depth + 1).value, depth)
  {
    hide GetText, FitsText, GetExprList, FitsExprs, FitsExpr, GetExpr, GetStrList, FitsStrs, GetMatch;
    if GetResolve(b, depth + 1).Got? {
      ReadTextFits(b);
      var t1 := GetText(b).rest;
      ReadExprListFits(t1, depth + 1);
      var t2 := GetExprList(t1, depth + 1).rest;
      ReadTextFits(t2);
      var t4 := GetMatch(GetText(t2).rest).rest;
      ReadExprFits(t4, depth + 1);
      ReadStrListFits(GetExpr(t4, depth + 1).rest);
    }
  }

  lemma {:induction false} ReadOpFits(b: Bytes, depth: nat)
    ensures GetOp(b, depth).Got? ==> FitsOp(GetOp(b, depth).value, depth)
    decreases |b|, 0
  {
    hide GetText, FitsText, GetExprList, FitsExprs, FitsExpr, GetExpr, GetStrList, FitsStrs, GetBool, FitsBool,
      GetFindArgList, FitsFindArgs, GetResolve, GetRelationOp, GetOpList;
    if GetOp(b, depth).Got? {
      var t, d := b[1..], depth + 1;
      match b[0]
      case 1 => ReadResolveFits(t, depth);
      case 2 => ReadTextFits(t); ReadFindArgListFits(GetText(t).rest, d);
      case 3 => ReadTextFits(t); ReadExprFits(GetText(t).rest, d);
      case 4 =>
        ReadBoolFits(t, d);
        var t1 := GetBool(t, d).rest;
        ReadOpListFits(t1, d);
        ReadOpListFits(GetOpList(t1, d).rest, d);
      case 9 =>
        ReadTextFits(t);
        ReadExprListFits(GetText(t).rest, d);
        ReadStrListFits(GetExprList(GetText(t).rest, d).rest);
      case _ => ReadRelationOpFits(t, d);
    }
  }

  // ----- which bytes come back -----

  predicate PlainRelationOp(b: Bytes, depth: nat) {
    GetText(b).Got? ==> PlainExprList(GetText(b).rest, depth)
  }

  predicate PlainResolve(b: Bytes, depth: nat) {
    PlainRelationOp(b, depth) &&
    match GetRelationOp(b, depth)
    case Fail => true
    case Got(_, t) =>
      match GetText(t)
      case Fail => true
      case Got(_, t1) => GetMatch(t1).Got? ==> PlainExpr(GetMatch(t1).rest, depth)
  }

  /** Every literal an operation holds is plain. */
  predicate PlainOp(b: Bytes, depth: nat)
    decreases |b|, 0
  {
    b == [] ||
    var t, d := b[1..], depth + 1;
    match b[0]
    case 1 => PlainResolve(t, d)
    case 2 => GetText(t).Got? ==> PlainFindArgList(GetText(t).rest, d)
    case 3 => GetText(t).Got? ==> PlainExpr(GetText(t).rest, d)
    case 4 =>
      PlainBool(t, d) && (GetBool(t, d).Got? ==>
        var t1 := GetBool(t, d).rest;
        PlainOpList(t1, d) && (GetOpList(t1, d).Got? ==> PlainOpList(GetOpList(t1, d).rest, d)))
    case _ => PlainRelationOp(t, d)
  }

  /** A relation and its arguments, after whatever was read before them. */
  lemma RelationOpBack(b: Bytes, head: Bytes, t: Bytes, depth: nat)
    requires Back(b, head, t, true) && GetRelationOp(t, depth).Got?
    ensures var r := GetRelationOp(t, depth);
      Back(b, head + PutBytes(r.value.0) + PutExprList(r.value.1), r.rest, PlainRelationOp(t, depth))
  {
    hide Back, GetText, PutBytes, GetExprList, PutExprList, PlainExprList;
    var s := GetText(t);
    var args := GetExprList(s.rest, depth);
    TextBack(t);
    ExprListBack(s.rest, depth);
    BackThen(b, head, t, true, PutBytes(s.value), s.rest, true);
    BackThen(b, head + PutBytes(s.value), s.rest, true, PutExprList(args.value), args.rest,
      PlainExprList(s.rest, depth));
  }

  lemma MatchBack(b: Bytes)
    requires GetMatch(b).Got?
    ensures Back(b, [MatchTag(GetMatch(b).value)], GetMatch(b).rest, true)
  {
    TagBack(b);
  }

  lemma ResolveBack(b: Bytes, depth: nat)
    requires b != [] && b[0] == OP_RESOLVE && GetResolve(b[1..], depth).Got?
    ensures var r := GetResolve(b[1..], depth); Back(b, PutOp(r.value), r.rest, PlainResolve(b[1..], depth))
  {
    hide Back, GetText, PutBytes, GetExprList, PutExprList, PlainExprList, GetExpr, PutExpr, PlainExpr, GetStrList,
      PutStrList, GetMatch, MatchTag, PlainRelationOp;
    var t := b[1..];
    var r := GetRelationOp(t, depth);
    var column := GetText(r.rest);
    var how := GetMatch(column.rest);
    var rhs := GetExpr(how.rest, depth);
    var dests := GetStrList(rhs.rest);
    var p1, p2 := PlainRelationOp(t, depth), PlainExpr(how.rest, depth);
    TagBack(b);
    RelationOpBack(b, [b[0]], t, depth);
    TextBack(r.rest);
    MatchBack(column.rest);
    ExprBack(how.rest, depth);
    StrListBack(rhs.rest);
    var h1 := [b[0]] + PutBytes(r.value.0) + PutExprList(r.value.1);
    BackThen(b, h1, r.rest, p1, PutBytes(column.value), column.rest, true);
    var h2 := h1 + PutBytes(column.value);
    BackThen(b, h2, column.rest, p1, [MatchTag(how.value)], how.rest, true);
    var h3 := h2 + [MatchTag(how.value)];
    BackThen(b, h3, how.rest, p1, PutExpr(rhs.value), rhs.rest, p2);
    BackThen(b, h3 + PutExpr(rhs.value), rhs.rest, p1 && p2, PutStrList(dests.value), dests.rest, true);
  }

  lemma FindBack(b: Bytes, depth: nat)
    requires GetOp(b, depth).Got? && b[0] == OP_FIND
    ensures Back(b, PutOp(GetOp(b, depth).value), GetOp(b, depth).rest, PlainOp(b, depth))
  {
    hide Back, GetText, PutBytes, GetFindArgList, PutFindArgList, PlainFindArgList;
    var t, d := b[1..], depth + 1;
    var s := GetText(t);
    var finds := GetFindArgList(s.rest, d);
    TagBack(b);
    TextBack(t);
    FindArgListBack(s.rest, d);
    BackThen(b, [b[0]], t, true, PutBytes(s.value), s.rest, true);
    BackThen(b, [b[0]] + PutBytes(s.value), s.rest, true, PutFindArgList(finds.value), finds.rest,
      PlainFindArgList(s.rest, d));
  }

  lemma LetBack(b: Bytes, depth: nat)
    requires GetOp(b, depth).Got? && b[0] == OP_LET
    ensures Back(b, PutOp(GetOp(b, depth).value), GetOp(b, depth).rest, PlainOp(b, depth))
  {
    hide Back, GetText, PutBytes, GetExpr, PutExpr, PlainExpr;
    var t, d := b[1..], depth + 1;
    var s := GetText(t);
    var e := GetExpr(s.rest, d);
    TagBack(b);
    TextBack(t);
    ExprBack(s.rest, d);
    BackThen(b, [b[0]], t, true, PutBytes(s.value), s.rest, true);
    BackThen(b, [b[0]] + PutBytes(s.value), s.rest, true, PutExpr(e.value), e.rest, PlainExpr(s.rest, d));
  }

  lemma EffectBack(b: Bytes, depth: nat)
    requires GetOp(b, depth).Got? && OP_EXPECT <= b[0] <= OP_EMIT
    ensures Back(b, PutOp(GetOp(b, depth).value), GetOp(b, depth).rest, PlainOp(b, depth))
  {
    hide Back, GetRelationOp, PutBytes, PutExprList, PlainRelationOp;
    TagBack(b);
    RelationOpBack(b, [b[0]], b[1..], depth + 1);
  }

  lemma InvokeBack(b: Bytes, depth: nat)
    requires GetOp(b, depth).Got? && b[0] == OP_CAPABILITY
    ensures Back(b, PutOp(GetOp(b, depth).value), GetOp(b, depth).rest, PlainOp(b, depth))
  {
    hide Back, PutBytes, PutExprList, PlainRelationOp, GetStrList, PutStrList, GetText, GetExprList;
    var t, d := b[1..], depth + 1;
    var r := GetRelationOp(t, d);
    var dests := GetStrList(r.rest);
    TagBack(b);
    RelationOpBack(b, [b[0]], t, d);
    StrListBack(r.rest);
    BackThen(b, [b[0]] + PutBytes(r.value.0) + PutExprList(r.value.1), r.rest, PlainRelationOp(t, d),
      PutStrList(dests.value),
             dests.rest, true);
  }

  lemma {:induction false} IfBack(b: Bytes, depth: nat)
    requires GetOp(b, depth).Got? && b[0] == OP_IF
    ensures Back(b, PutOp(GetOp(b, depth).value), GetOp(b, depth).rest, PlainOp(b, depth))
    decreases |b|, 0
  {
    hide Back, GetBool, PutBool, PlainBool, GetOpList, PutOpList, PlainOpList;
    var t, d := b[1..], depth + 1;
    var c := GetBool(t, d);
    var x := GetOpList(c.rest, d);
    var y := GetOpList(x.rest, d);
    var p1, p2, p3 := PlainBool(t, d), PlainOpList(c.rest, d), PlainOpList(x.rest, d);
    TagBack(b);
    BoolBack(t, d);
    OpListBack(c.rest, d);
    OpListBack(x.rest, d);
    BackThen(b, [b[0]], t, true, PutBool(c.value), c.rest, p1);
    var head := [b[0]] + PutBool(c.value);
    BackThen(b, head, c.rest, p1, PutOpList(x.value), x.rest, p2);
    BackThen(b, head + PutOpList(x.value), x.rest, p1 && p2, PutOpList(y.value), y.rest, p3);
  }

  lemma {:induction false} OpBack(b: Bytes, depth: nat)
    requires GetOp(b, depth).Got?
    ensures Back(b, PutOp(GetOp(b, depth).value), GetOp(b, depth).rest, PlainOp(b, depth))
    decreases |b|, 1
  {
    hide Back, GetResolve, PlainResolve, GetRelationOp, PlainRelationOp, PutOp;
    match b[0]
    case 1 => ResolveBack(b, depth + 1);
    case 2 => FindBack(b, depth);
    case 3 => LetBack(b, depth);
    case 4 => IfBack(b, depth);
    case 9 => InvokeBack(b, depth);
    case _ => EffectBack(b, depth);
  }

  lemma {:induction false} OpListRoundTrip(xs: seq<Op>, depth: nat, rest: Bytes)
    requires |xs| < U32 && forall x <- xs :: FitsOp(x, depth)
    ensures GetOpList(PutOpList(xs) + rest, depth) == Got(xs, rest)
    decreases xs, 2
  {
    hide PutOp, GetOp, FitsOp, PutList, GetList;
    var parts := seq(|xs|, i requires 0 <= i < |xs| => PutOp(xs[i]));
    var b := PutOpList(xs) + rest;
    forall i, r: Bytes | 0 <= i < |xs| && |parts[i] + r| < |b|
      ensures OpReader(|b|, depth)(parts[i] + r) == Got(xs[i], r) {
      OpRoundTrip(xs[i], depth, r);
    }
    ListRoundTrip(OpReader(|b|, depth), xs, parts, rest);
  }

  lemma {:induction false} ReadOpListFits(b: Bytes, depth: nat)
    ensures GetOpList(b, depth).Got? ==> forall x <- GetOpList(b, depth).value :: FitsOp(x, depth)
    decreases |b|, 1
  {
    hide GetOp, FitsOp, GetList;
    var get := OpReader(|b|, depth);
    var fits := (x: Op) => FitsOp(x, depth);
    forall x: Bytes ensures get(x).Got? ==> fits(get(x).value) {
      if |x| < |b| {
        ReadOpFits(x, depth);
      }
    }
    ListHolds(get, b, fits);
  }

  function PlainOpTest(limit: nat, depth: nat): Bytes -> bool
    decreases limit, 1
  {
    (b: Bytes) => |b| < limit ==> PlainOp(b, depth)
  }

  predicate PlainOpList(b: Bytes, depth: nat)
    decreases |b|, 2
  {
    PlainList(OpReader(|b|, depth), PlainOpTest(|b|, depth), b)
  }

  lemma {:induction false} OpListBack(b: Bytes, depth: nat)
    requires GetOpList(b, depth).Got?
    ensures Back(b, PutOpList(GetOpList(b, depth).value), GetOpList(b, depth).rest, PlainOpList(b, depth))
    decreases |b|, 2
  {
    hide Back, GetOp, PutOp, PlainOp, GetList, PutList, PlainList;
    var get, plain := OpReader(|b|, depth), PlainOpTest(|b|, depth);
    forall x: Bytes ensures get(x).Got? ==> Back(x, PutOp(get(x).value), get(x).rest, plain(x)) {
      if get(x).Got? {
        OpBack(x, depth);
      }
    }
    ListBack(get, PutOp, plain, b);
    var xs := GetOpList(b, depth).value;
    assert Parts(PutOp, xs) == seq(|xs|, i requires 0 <= i < |xs| => PutOp(xs[i]));
  }

  // ----- behaviors -----

  function EncodeBehavior(x: Behavior): Bytes {
    [FORMAT_VERSION] + PutPred(x.guard) + PutStrList(x.parameters) + PutOpList(x.body)
  }

  /** The version byte, the guard, the parameters, the body, and nothing more. */
  function DecodeBehavior(b: Bytes): Option<Behavior> {
    if b == [] || b[0] != FORMAT_VERSION then None else
    match GetPred(b[1..], 0)
    case Fail => None
    case Got(guard, t1) =>
      match GetStrList(t1)
      case Fail => None
      case Got(parameters, t2) =>
        match GetOpList(t2, 0)
        case Fail => None
        case Got(body, t3) => if t3 == [] then Some(Behavior(guard, parameters, body)) else None
  }

  /** Within the depth limits, the lengths a count can hold, and the ranges of cells. */
  predicate Fits(x: Behavior) {
    FitsPred(x.guard, 0) && FitsStrs(x.parameters) && |x.body| < U32 &&
    forall op <- x.body :: FitsOp(op, 0)
  }

  /** A behavior within the limits decodes back to itself. */
  lemma BehaviorRoundTrip(x: Behavior)
    requires Fits(x)
    ensures DecodeBehavior(EncodeBehavior(x)) == Some(x)
  {
    hide PutPred, GetPred, FitsPred, PutStrList, GetStrList, PutOpList, GetOpList, FitsOp, FitsText;
    var r2 := PutOpList(x.body);
    var r1 := PutStrList(x.parameters) + r2;
    PredRoundTrip(x.guard, 0, r1);
    StrListRoundTrip(x.parameters, r2);
    OpListRoundTrip(x.body, 0, []);
    assert r2 + [] == r2;
    assert EncodeBehavior(x)[1..] == PutPred(x.guard) + r1;
  }

  /** Whatever decodes is within the limits. */
  lemma DecodedFits(b: Bytes)
    ensures DecodeBehavior(b).Some? ==> Fits(DecodeBehavior(b).value)
  {
    hide GetPred, FitsPred, GetStrList, GetOpList, FitsOp, FitsText;
    if DecodeBehavior(b).Some? {
      ReadPredFits(b[1..], 0);
      var t1 := GetPred(b[1..], 0).rest;
      ReadStrListFits(t1);
      ReadOpListFits(GetStrList(t1).rest, 0);
    }
  }

  /** Exactly the behaviors within the limits survive being stored. */
  lemma SurvivesIffFits(x: Behavior)
    ensures DecodeBehavior(EncodeBehavior(x)) == Some(x) <==> Fits(x)
  {
    hide DecodeBehavior, EncodeBehavior, Fits;
    if Fits(x) {
      BehaviorRoundTrip(x);
    }
    DecodedFits(EncodeBehavior(x));
  }

  /** Any bytes that decode can be written again and read back the same. */
  lemma ReencodesTheSame(b: Bytes)
    requires DecodeBehavior(b).Some?
    ensures DecodeBehavior(EncodeBehavior(DecodeBehavior(b).value)) == DecodeBehavior(b)
  {
    hide DecodeBehavior, EncodeBehavior, Fits;
    DecodedFits(b);
    BehaviorRoundTrip(DecodeBehavior(b).value);
  }

  /** Every literal a stored behavior holds is plain. */
  predicate PlainBehavior(b: Bytes) {
    b != [] ==> PlainPred(b[1..], 0) && PlainAfterGuard(b[1..])
  }

  predicate PlainAfterGuard(b: Bytes) {
    match GetPred(b, 0)
    case Fail => true
    case Got(_, t) => GetStrList(t).Got? ==> PlainOpList(GetStrList(t).rest, 0)
  }

  /** **Which bytes come back.** Bytes that decode are what is written of the behavior
      exactly when every flag in their literals is 0 or 1 and no float is a zero with a
      sign. */
  lemma BytesSurviveIffPlain(b: Bytes)
    requires DecodeBehavior(b).Some?
    ensures EncodeBehavior(DecodeBehavior(b).value) == b <==> PlainBehavior(b)
  {
    hide Back, GetPred, PutPred, PlainPred, GetStrList, PutStrList, GetOpList, PutOpList, PlainOpList;
    var t := b[1..];
    var guard := GetPred(t, 0);
    var names := GetStrList(guard.rest);
    var body := GetOpList(names.rest, 0);
    var p1, p2 := PlainPred(t, 0), PlainOpList(names.rest, 0);
    TagBack(b);
    PredBack(t, 0);
    StrListBack(guard.rest);
    OpListBack(names.rest, 0);
    BackThen(b, [b[0]], t, true, PutPred(guard.value), guard.rest, p1);
    var head := [b[0]] + PutPred(guard.value);
    BackThen(b, head, guard.rest, p1, PutStrList(names.value), names.rest, true);
    BackThen(b, head + PutStrList(names.value), names.rest, p1, PutOpList(body.value), body.rest, p2);
    BackIff(b, EncodeBehavior(DecodeBehavior(b).value), [], p1 && p2);
    assert EncodeBehavior(DecodeBehavior(b).value) + [] == EncodeBehavior(DecodeBehavior(b).value);
  }

  /** The condition can fail: a flag byte of 2 reads as true, and is written as 1. */
  lemma BytesNeedNotSurvive()
    ensures GetValue([TAG_BOOL, 2], 0) == Got(Bool(true), []) && !PlainValue([TAG_BOOL, 2], 0)
  {
    assert [TAG_BOOL, 2][1..] == [2];
    assert [2][1..] == [];
  }
}
