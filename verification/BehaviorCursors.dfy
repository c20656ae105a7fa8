/** Stored behaviors written by appending to a buffer and read by moving a cursor. */
module BehaviorCursors {
  import opened Readers
  import opened Wire
  import opened Behaviors

  // ----- writing -----

  lemma Tack2(out: Bytes, t: Bytes, a: Bytes, b: Bytes)
    ensures out + t + a + b == out + (t + a + b)
  {
  }

  lemma Tack3(out: Bytes, t: Bytes, a: Bytes, b: Bytes, c: Bytes)
    ensures out + t + a + b + c == out + (t + a + b + c)
  {
  }

  lemma Tack6(out: Bytes, t: Bytes, a: Bytes, b: Bytes, c: Bytes, d: Bytes, e: Bytes, f: Bytes)
    ensures out + t + a + b + c + d + e + f == out + (t + a + b + c + d + e + f)
  {
    Tack3(out, t, a, b, c);
    Tack3(out, t + a + b + c, d, e, f);
  }

  method WriteBytes(s: Bytes, out: Bytes) returns (out': Bytes)
    ensures out' == out + PutBytes(s)
  {
    out' := out + PutU32(|s|);
    out' := out' + s;
  }

  method WriteStrs(xs: seq<Bytes>, out: Bytes) returns (out': Bytes)
    ensures out' == out + PutStrList(xs)
    decreases xs, 1
  {
    hide PutU32, PutBytes, Flatten;
    ghost var parts := Parts(PutBytes, xs);
    out' := out + PutU32(|xs|);
    ListBegun(out, parts);
    for i := 0 to |xs|
      invariant Begun(out, parts, out', i)
    {
      NextWritten(out, parts, out', i);
      out' := WriteBytes(xs[i], out');
    }
    ListWritten(out, parts, out');
  }

  method WriteRow(e: RowExpr, out: Bytes) returns (out': Bytes)
    ensures out' == out + PutRow(e)
    decreases e, 0
  {
    hide PutU32, PutValue;
    match e {
      case Col(i) =>
        out' := out + [ROW_COL];
        out' := out' + PutU32(i);
      case Lit(v) =>
        out' := out + [ROW_LIT];
        out' := EncodeValue(v, out');
    }
  }

  method WritePred(p: PredExpr, out: Bytes) returns (out': Bytes)
    ensures out' == out + PutPred(p)
    decreases p, 0
  {
    hide PutRow, PutPredList;
    match p {
      case Eq(x, y) =>
        out' := out + [PRED_EQ];
        out' := WriteRow(x, out');
        out' := WriteRow(y, out');
      case And(ps) =>
        out' := out + [PRED_AND];
        out' := WritePreds(ps, out');
    }
  }

  method WritePreds(xs: seq<PredExpr>, out: Bytes) returns (out': Bytes)
    ensures out' == out + PutPredList(xs)
    decreases xs, 1
  {
    hide PutU32, PutPred, Flatten;
    ghost var parts := seq(|xs|, i requires 0 <= i < |xs| => PutPred(xs[i]));
    out' := out + PutU32(|xs|);
    ListBegun(out, parts);
    for i := 0 to |xs|
      invariant Begun(out, parts, out', i)
    {
      NextWritten(out, parts, out', i);
      out' := WritePred(xs[i], out');
    }
    ListWritten(out, parts, out');
  }

  method WriteTerm(e: ValueExpr, out: Bytes) returns (out': Bytes)
    ensures out' == out + PutTerm(e)
    decreases e, 0
  {
    hide PutBytes, PutValue, PutTermList;
    match e {
      case Local(s) =>
        out' := out + [VALUE_LOCAL];
        out' := WriteBytes(s, out');
      case Literal(v) =>
        out' := out + [VALUE_LITERAL];
        out' := EncodeValue(v, out');
      case Intrinsic(s, args) =>
        out' := out + [VALUE_INTRINSIC];
        out' := WriteBytes(s, out');
        out' := WriteTerms(args, out');
    }
  }

  method WriteTerms(xs: seq<ValueExpr>, out: Bytes) returns (out': Bytes)
    ensures out' == out + PutTermList(xs)
    decreases xs, 1
  {
    hide PutU32, PutTerm, Flatten;
    ghost var parts := seq(|xs|, i requires 0 <= i < |xs| => PutTerm(xs[i]));
    out' := out + PutU32(|xs|);
    ListBegun(out, parts);
    for i := 0 to |xs|
      invariant Begun(out, parts, out', i)
    {
      NextWritten(out, parts, out', i);
      out' := WriteTerm(xs[i], out');
    }
    ListWritten(out, parts, out');
  }

  method WriteBool(e: BoolExpr, out: Bytes) returns (out': Bytes)
    ensures out' == out + PutBool(e)
    decreases e, 0
  {
    hide PutTerm, CompareTag;
    match e {
      case Truth(v) =>
        out' := out + [BOOL_VALUE];
        out' := WriteTerm(v, out');
      case Compare(op, l, r) =>
        out' := out + [BOOL_COMPARE];
        out' := out' + [CompareTag(op)];
        out' := WriteTerm(l, out');
        out' := WriteTerm(r, out');
        Tack3(out, [BOOL_COMPARE], [CompareTag(op)], PutTerm(l), PutTerm(r));
      case Not(x) =>
        out' := out + [BOOL_NOT];
        out' := WriteBool(x, out');
      case Both(l, r) =>
        out' := out + [BOOL_AND];
        out' := WriteBool(l, out');
        out' := WriteBool(r, out');
        Tack2(out, [BOOL_AND], PutBool(l), PutBool(r));
      case Either(l, r) =>
        out' := out + [BOOL_OR];
        out' := WriteBool(l, out');
        out' := WriteBool(r, out');
        Tack2(out, [BOOL_OR], PutBool(l), PutBool(r));
    }
  }

  method WriteExpr(e: ExprIr, out: Bytes) returns (out': Bytes)
    ensures out' == out + PutExpr(e)
    decreases e, 0
  {
    hide PutTerm, PutBool;
    match e {
      case OfValue(v) =>
        out' := out + [EXPR_VALUE];
        out' := WriteTerm(v, out');
      case OfBool(x) =>
        out' := out + [EXPR_BOOL];
        out' := WriteBool(x, out');
    }
  }

  method WriteExprs(xs: seq<ExprIr>, out: Bytes) returns (out': Bytes)
    ensures out' == out + PutExprList(xs)
    decreases xs, 1
  {
    hide PutU32, PutExpr, Flatten;
    ghost var parts := Parts(PutExpr, xs);
    out' := out + PutU32(|xs|);
    ListBegun(out, parts);
    for i := 0 to |xs|
      invariant Begun(out, parts, out', i)
    {
      NextWritten(out, parts, out', i);
      out' := WriteExpr(xs[i], out');
    }
    ListWritten(out, parts, out');
  }

  method WriteFindArg(a: FindArg, out: Bytes) returns (out': Bytes)
    ensures out' == out + PutFindArg(a)
    decreases a, 0
  {
    hide PutExpr, PutBytes;
    match a {
      case Match(e) =>
        out' := out + [FIND_MATCH];
        out' := WriteExpr(e, out');
      case Bind(s) =>
        out' := out + [FIND_BIND];
        out' := WriteBytes(s, out');
      case MatchBind(e, s) =>
        out' := out + [FIND_MATCH_BIND];
        out' := WriteExpr(e, out');
        out' := WriteBytes(s, out');
    }
  }

  method WriteFindArgs(xs: seq<FindArg>, out: Bytes) returns (out': Bytes)
    ensures out' == out + PutFindArgList(xs)
    decreases xs, 1
  {
    hide PutU32, PutFindArg, Flatten;
    ghost var parts := Parts(PutFindArg, xs);
    out' := out + PutU32(|xs|);
    ListBegun(out, parts);
    for i := 0 to |xs|
      invariant Begun(out, parts, out', i)
    {
      NextWritten(out, parts, out', i);
      out' := WriteFindArg(xs[i], out');
    }
    ListWritten(out, parts, out');
  }

  method WriteRelationOp(tag: Byte, relation: Bytes, args: seq<ExprIr>, out: Bytes) returns (out': Bytes)
    ensures out' == out + PutRelationOp(tag, relation, args)
  {
    hide PutBytes, PutExprList;
    out' := out + [tag];
    out' := WriteBytes(relation, out');
    out' := WriteExprs(args, out');
  }

  method WriteOp(op: Op, out: Bytes) returns (out': Bytes)
    ensures out' == out + PutOp(op)
    decreases op, 0
  {
    hide PutBytes, PutExprList, PutExpr, PutStrList, PutFindArgList, PutBool, PutOpList, PutRelationOp;
    match op {
      case Resolve(view, args, column, how, rhs, dests) =>
        out' := out + [OP_RESOLVE];
        out' := WriteBytes(view, out');
        out' := WriteExprs(args, out');
        out' := WriteBytes(column, out');
        out' := out' + [MatchTag(how)];
        out' := WriteExpr(rhs, out');
        out' := WriteStrs(dests, out');
        Tack6(out, [OP_RESOLVE], PutBytes(view), PutExprList(args), PutBytes(column), [MatchTag(how)], PutExpr(rhs),
          PutStrList(dests));
      case Find(relation, finds) =>
        out' := out + [OP_FIND];
        out' := WriteBytes(relation, out');
        out' := WriteFindArgs(finds, out');
        Tack2(out, [OP_FIND], PutBytes(relation), PutFindArgList(finds));
      case Let(local, value) =>
        out' := out + [OP_LET];
        out' := WriteBytes(local, out');
        out' := WriteExpr(value, out');
        Tack2(out, [OP_LET], PutBytes(local), PutExpr(value));
      case If(condition, then_, else_) =>
        out' := out + [OP_IF];
        out' := WriteBool(condition, out');
        out' := WriteOps(then_, out');
        out' := WriteOps(else_, out');
        Tack3(out, [OP_IF], PutBool(condition), PutOpList(then_), PutOpList(else_));
      case Expect(relation, args) => out' := WriteRelationOp(OP_EXPECT, relation, args, out);
      case Assert(relation, args) => out' := WriteRelationOp(OP_ASSERT, relation, args, out);
      case Retract(relation, args) => out' := WriteRelationOp(OP_RETRACT, relation, args, out);
      case Emit(relation, args) => out' := WriteRelationOp(OP_EMIT, relation, args, out);
      case Invoke(capability, args, dests) =>
        out' := out + [OP_CAPABILITY];
        out' := WriteBytes(capability, out');
        out' := WriteExprs(args, out');
        out' := WriteStrs(dests, out');
        Tack3(out, [OP_CAPABILITY], PutBytes(capability), PutExprList(args), PutStrList(dests));
    }
  }

  method WriteOps(xs: seq<Op>, out: Bytes) returns (out': Bytes)
    ensures out' == out + PutOpList(xs)
    decreases xs, 1
  {
    hide PutU32, PutOp, Flatten;
    ghost var parts := seq(|xs|, i requires 0 <= i < |xs| => PutOp(xs[i]));
    out' := out + PutU32(|xs|);
    ListBegun(out, parts);
    for i := 0 to |xs|
      invariant Begun(out, parts, out', i)
    {
      NextWritten(out, parts, out', i);
      out' := WriteOp(xs[i], out');
    }
    ListWritten(out, parts, out');
  }

  /** The buffer holds the encoding the round trip is proved of. */
  method WriteBehavior(x: Behavior) returns (out: Bytes)
    ensures out == EncodeBehavior(x)
    ensures Fits(x) ==> DecodeBehavior(out) == Some(x)
  {
    hide PutPred, PutStrList, PutOpList, Fits, DecodeBehavior;
    out := [FORMAT_VERSION];
    out := WritePred(x.guard, out);
    out := WriteStrs(x.parameters, out);
    out := WriteOps(x.body, out);
    SurvivesIffFits(x);
  }

  // ----- reading -----

  method ReadTag(bytes: Bytes, pos: nat) returns (r: Option<(Byte, nat)>)
    requires pos <= |bytes|
    ensures Agrees(bytes, r, GetTag(bytes[pos..]))
  {
    r := if pos == |bytes| then None else Some((bytes[pos], pos + 1));
  }

  method ReadText(bytes: Bytes, pos: nat) returns (r: Option<(Bytes, nat)>)
    requires pos <= |bytes|
    ensures Agrees(bytes, r, GetText(bytes[pos..]))
  {
    hide GetBytes, Utf8;
    var s :- ReadBytes(bytes, pos);
    r := if Utf8(s.0) then Some(s) else None;
  }

  method ReadCompare(bytes: Bytes, pos: nat) returns (r: Option<(CompareOp, nat)>)
    requires pos <= |bytes|
    ensures Agrees(bytes, r, GetCompare(bytes[pos..]))
  {
    hide GetTag;
    var tag :- ReadTag(bytes, pos);
    match tag.0 {
      case 0 => r := Some((CmpEq, tag.1));
      case 1 => r := Some((CmpNe, tag.1));
      case 2 => r := Some((CmpLt, tag.1));
      case 3 => r := Some((CmpLe, tag.1));
      case 4 => r := Some((CmpGt, tag.1));
      case 5 => r := Some((CmpGe, tag.1));
      case _ => r := None;
    }
  }

  method ReadMatch(bytes: Bytes, pos: nat) returns (r: Option<(MatchOp, nat)>)
    requires pos <= |bytes|
    ensures Agrees(bytes, r, GetMatch(bytes[pos..]))
  {
    hide GetTag;
    var tag :- ReadTag(bytes, pos);
    match tag.0 {
      case 0 => r := Some((Exact, tag.1));
      case 1 => r := Some((Word, tag.1));
      case _ => r := None;
    }
  }

  method ReadStrs(bytes: Bytes, pos: nat) returns (r: Option<(seq<Bytes>, nat)>)
    requires pos <= |bytes|
    ensures Agrees(bytes, r, GetStrList(bytes[pos..]))
    decreases |bytes| - pos, 1
  {
    hide GetU32, GetText, GetMany, SoFar;
    var count :- ReadU32(bytes, pos);
    var p := count.1;
    var xs: seq<Bytes> := [];
    ghost var get := GetText;
    ghost var all := GetMany(get, count.0, bytes[p..]);
    TextShrinks();
    NothingRead(all);
    for i := 0 to count.0
      invariant pos < p <= |bytes|
      invariant SoFar(all, xs, GetMany(get, count.0 - i, bytes[p..]))
    {
      NextRead(all, xs, get, count.0 - i, bytes[p..]);
      var x :- ReadText(bytes, p);
      xs, p := xs + [x.0], x.1;
    }
    NoneLeft(get, bytes[p..]);
    AllRead(all, xs, bytes[p..]);
    r := Some((xs, p));
  }

  method ReadRow(bytes: Bytes, pos: nat) returns (r: Option<(RowExpr, nat)>)
    requires pos <= |bytes|
    ensures Agrees(bytes, r, GetRow(bytes[pos..]))
    decreases |bytes| - pos, 0
  {
    hide GetTag, GetU32, GetValue;
    var tag :- ReadTag(bytes, pos);
    if tag.0 == ROW_COL {
      var i :- ReadU32(bytes, tag.1);
      r := Some((Col(i.0), i.1));
    } else if tag.0 == ROW_LIT {
      var v :- DecodeValueAt(bytes, tag.1, 0);
      r := Some((Lit(v.0), v.1));
    } else {
      r := None;
    }
  }

  method ReadPred(bytes: Bytes, pos: nat, depth: nat) returns (r: Option<(PredExpr, nat)>)
    requires pos <= |bytes|
    ensures Agrees(bytes, r, GetPred(bytes[pos..], depth))
    decreases |bytes| - pos, 0
  {
    hide GetTag, GetRow, GetPredList;
    if depth >= MAX_IR_DEPTH {
      return None;
    }
    var tag :- ReadTag(bytes, pos);
    if tag.0 == PRED_EQ {
      var x :- ReadRow(bytes, tag.1);
      var y :- ReadRow(bytes, x.1);
      r := Some((Eq(x.0, y.0), y.1));
    } else if tag.0 == PRED_AND {
      var ps :- ReadPreds(bytes, tag.1, depth + 1);
      r := Some((And(ps.0), ps.1));
    } else {
      r := None;
    }
  }

  method ReadPreds(bytes: Bytes, pos: nat, depth: nat) returns (r: Option<(seq<PredExpr>, nat)>)
    requires pos <= |bytes|
    ensures Agrees(bytes, r, GetPredList(bytes[pos..], depth))
    decreases |bytes| - pos, 1
  {
    hide GetU32, GetPred, GetMany, SoFar;
    var count :- ReadU32(bytes, pos);
    var p := count.1;
    var xs: seq<PredExpr> := [];
    ghost var get := PredReader(|bytes| - pos, depth);
    ghost var all := GetMany(get, count.0, bytes[p..]);
    NothingRead(all);
    for i := 0 to count.0
      invariant pos < p <= |bytes|
      invariant SoFar(all, xs, GetMany(get, count.0 - i, bytes[p..]))
    {
      NextRead(all, xs, get, count.0 - i, bytes[p..]);
      var x :- ReadPred(bytes, p, depth);
      xs, p := xs + [x.0], x.1;
    }
    NoneLeft(get, bytes[p..]);
    AllRead(all, xs, bytes[p..]);
    r := Some((xs, p));
  }

  method ReadTerm(bytes: Bytes, pos: nat, depth: nat) returns (r: Option<(ValueExpr, nat)>)
    requires pos <= |bytes|
    ensures Agrees(bytes, r, GetTerm(bytes[pos..], depth))
    decreases |bytes| - pos, 0
  {
    hide GetTag, GetText, GetValue, GetTermList;
    if depth >= MAX_IR_DEPTH {
      return None;
    }
    var tag :- ReadTag(bytes, pos);
    if tag.0 == VALUE_LOCAL {
      var s :- ReadText(bytes, tag.1);
      r := Some((Local(s.0), s.1));
    } else if tag.0 == VALUE_LITERAL {
      var v :- DecodeValueAt(bytes, tag.1, 0);
      r := Some((Literal(v.0), v.1));
    } else if tag.0 == VALUE_INTRINSIC {
      var s :- ReadText(bytes, tag.1);
      var args :- ReadTerms(bytes, s.1, depth + 1);
      r := Some((Intrinsic(s.0, args.0), args.1));
    } else {
      r := None;
    }
  }

  method ReadTerms(bytes: Bytes, pos: nat, depth: nat) returns (r: Option<(seq<ValueExpr>, nat)>)
    requires pos <= |bytes|
    ensures Agrees(bytes, r, GetTermList(bytes[pos..], depth))
    decreases |bytes| - pos, 1
  {
    hide GetU32, GetTerm, GetMany, SoFar;
    var count :- ReadU32(bytes, pos);
    var p := count.1;
    var xs: seq<ValueExpr> := [];
    ghost var get := TermReader(|bytes| - pos, depth);
    ghost var all := GetMany(get, count.0, bytes[p..]);
    NothingRead(all);
    for i := 0 to count.0
      invariant pos < p <= |bytes|
      invariant SoFar(all, xs, GetMany(get, count.0 - i, bytes[p..]))
    {
      NextRead(all, xs, get, count.0 - i, bytes[p..]);
      var x :- ReadTerm(bytes, p, depth);
      xs, p := xs + [x.0], x.1;
    }
    NoneLeft(get, bytes[p..]);
    AllRead(all, xs, bytes[p..]);
    r := Some((xs, p));
  }

  method ReadBool(bytes: Bytes, pos: nat, depth: nat) returns (r: Option<(BoolExpr, nat)>)
    requires pos <= |bytes|
    ensures Agrees(bytes, r, GetBool(bytes[pos..], depth))
    decreases |bytes| - pos, 0
  {
    hide GetTag, GetTerm, GetCompare;
    if depth >= MAX_IR_DEPTH {
      return None;
    }
    var tag :- ReadTag(bytes, pos);
    if tag.0 == BOOL_VALUE {
      var v :- ReadTerm(bytes, tag.1, depth + 1);
      r := Some((Truth(v.0), v.1));
    } else if tag.0 == BOOL_COMPARE {
      var op :- ReadCompare(bytes, tag.1);
      var x :- ReadTerm(bytes, op.1, depth + 1);
      var y :- ReadTerm(bytes, x.1, depth + 1);
      r := Some((Compare(op.0, x.0, y.0), y.1));
    } else if tag.0 == BOOL_NOT {
      var x :- ReadBool(bytes, tag.1, depth + 1);
      r := Some((Not(x.0), x.1));
    } else if tag.0 == BOOL_AND {
      var x :- ReadBool(bytes, tag.1, depth + 1);
      var y :- ReadBool(bytes, x.1, depth + 1);
      r := Some((Both(x.0, y.0), y.1));
    } else if tag.0 == BOOL_OR {
      var x :- ReadBool(bytes, tag.1, depth + 1);
      var y :- ReadBool(bytes, x.1, depth + 1);
      r := Some((Either(x.0, y.0), y.1));
    } else {
      r := None;
    }
  }

  method ReadExpr(bytes: Bytes, pos: nat, depth: nat) returns (r: Option<(ExprIr, nat)>)
    requires pos <= |bytes|
    ensures Agrees(bytes, r, GetExpr(bytes[pos..], depth))
    decreases |bytes| - pos, 0
  {
    hide GetTag, GetTerm, GetBool;
    if depth >= MAX_IR_DEPTH {
      return None;
    }
    var tag :- ReadTag(bytes, pos);
    if tag.0 == EXPR_VALUE {
      var v :- ReadTerm(bytes, tag.1, depth + 1);
      r := Some((OfValue(v.0), v.1));
    } else if tag.0 == EXPR_BOOL {
      var x :- ReadBool(bytes, tag.1, depth + 1);
      r := Some((OfBool(x.0), x.1));
    } else {
      r := None;
    }
  }

  method ReadExprs(bytes: Bytes, pos: nat, depth: nat) returns (r: Option<(seq<ExprIr>, nat)>)
    requires pos <= |bytes|
    ensures Agrees(bytes, r, GetExprList(bytes[pos..], depth))
    decreases |bytes| - pos, 1
  {
    hide GetU32, GetExpr, GetMany, SoFar;
    var count :- ReadU32(bytes, pos);
    var p := count.1;
    var xs: seq<ExprIr> := [];
    ghost var get := ExprReader(depth);
    ghost var all := GetMany(get, count.0, bytes[p..]);
    NothingRead(all);
    for i := 0 to count.0
      invariant pos < p <= |bytes|
      invariant SoFar(all, xs, GetMany(get, count.0 - i, bytes[p..]))
    {
      NextRead(all, xs, get, count.0 - i, bytes[p..]);
      var x :- ReadExpr(bytes, p, depth);
      xs, p := xs + [x.0], x.1;
    }
    NoneLeft(get, bytes[p..]);
    AllRead(all, xs, bytes[p..]);
    r := Some((xs, p));
  }

  method ReadFindArg(bytes: Bytes, pos: nat, depth: nat) returns (r: Option<(FindArg, nat)>)
    requires pos <= |bytes|
    ensures Agrees(bytes, r, GetFindArg(bytes[pos..], depth))
    decreases |bytes| - pos, 0
  {
    hide GetTag, GetText, GetExpr;
    var tag :- ReadTag(bytes, pos);
    if tag.0 == FIND_MATCH {
      var e :- ReadExpr(bytes, tag.1, depth);
      r := Some((Match(e.0), e.1));
    } else if tag.0 == FIND_BIND {
      var s :- ReadText(bytes, tag.1);
      r := Some((Bind(s.0), s.1));
    } else if tag.0 == FIND_MATCH_BIND {
      var e :- ReadExpr(bytes, tag.1, depth);
      var s :- ReadText(bytes, e.1);
      r := Some((MatchBind(e.0, s.0), s.1));
    } else {
      r := None;
    }
  }

  method ReadFindArgs(bytes: Bytes, pos: nat, depth: nat) returns (r: Option<(seq<FindArg>, nat)>)
    requires pos <= |bytes|
    ensures Agrees(bytes, r, GetFindArgList(bytes[pos..], depth))
    decreases |bytes| - pos, 1
  {
    hide GetU32, GetFindArg, GetMany, SoFar;
    var count :- ReadU32(bytes, pos);
    var p := count.1;
    var xs: seq<FindArg> := [];
    ghost var get := FindArgReader(depth);
    ghost var all := GetMany(get, count.0, bytes[p..]);
    NothingRead(all);
    for i := 0 to count.0
      invariant pos < p <= |bytes|
      invariant SoFar(all, xs, GetMany(get, count.0 - i, bytes[p..]))
    {
      NextRead(all, xs, get, count.0 - i, bytes[p..]);
      var x :- ReadFindArg(bytes, p, depth);
      xs, p := xs + [x.0], x.1;
    }
    NoneLeft(get, bytes[p..]);
    AllRead(all, xs, bytes[p..]);
    r := Some((xs, p));
  }

  method ReadRelationOp(bytes: Bytes, pos: nat, depth: nat) returns (r: Option<((Bytes, seq<ExprIr>), nat)>)
    requires pos <= |bytes|
    ensures Agrees(bytes, r, GetRelationOp(bytes[pos..], depth))
    decreases |bytes| - pos, 0
  {
    hide GetText, GetExprList;
    var relation :- ReadText(bytes, pos);
    var args :- ReadExprs(bytes, relation.1, depth);
    r := Some(((relation.0, args.0), args.1));
  }

  method ReadResolve(bytes: Bytes, pos: nat, depth: nat) returns (r: Option<(Op, nat)>)
    requires pos <= |bytes|
    ensures Agrees(bytes, r, GetResolve(bytes[pos..], depth))
    decreases |bytes| - pos, 0
  {
    hide GetText, GetExprList, GetExpr, GetStrList, GetFindArgList, GetBool, GetMatch, GetTag;
    var view :- ReadText(bytes, pos);
    var args :- ReadExprs(bytes, view.1, depth);
    var column :- ReadText(bytes, args.1);
    var how :- ReadMatch(bytes, column.1);
    var rhs :- ReadExpr(bytes, how.1, depth);
    var dests :- ReadStrs(bytes, rhs.1);
    r := Some((Resolve(view.0, args.0, column.0, how.0, rhs.0, dests.0), dests.1));
  }

  method ReadOp(bytes: Bytes, pos: nat, depth: nat) returns (r: Option<(Op, nat)>)
    requires pos <= |bytes|
    ensures Agrees(bytes, r, GetOp(bytes[pos..], depth))
    decreases |bytes| - pos, 0
  {
    hide GetText, GetExprList, GetExpr, GetStrList, GetFindArgList, GetBool, GetMatch, GetTag, GetRelationOp,
      GetResolve, GetOpList;
    if depth >= MAX_IR_DEPTH {
      return None;
    }
    var tag :- ReadTag(bytes, pos);
    match tag.0 {
      case 1 =>
        r := ReadResolve(bytes, tag.1, depth + 1);
      case 2 =>
        var relation :- ReadText(bytes, tag.1);
        var finds :- ReadFindArgs(bytes, relation.1, depth + 1);
        r := Some((Find(relation.0, finds.0), finds.1));
      case 3 =>
        var local :- ReadText(bytes, tag.1);
        var value :- ReadExpr(bytes, local.1, depth + 1);
        r := Some((Let(local.0, value.0), value.1));
      case 4 =>
        var condition :- ReadBool(bytes, tag.1, depth + 1);
        var then_ :- ReadOps(bytes, condition.1, depth + 1);
        var else_ :- ReadOps(bytes, then_.1, depth + 1);
        r := Some((If(condition.0, then_.0, else_.0), else_.1));
      case 5 =>
        var x :- ReadRelationOp(bytes, tag.1, depth + 1);
        r := Some((Expect(x.0.0, x.0.1), x.1));
      case 6 =>
        var x :- ReadRelationOp(bytes, tag.1, depth + 1);
        r := Some((Assert(x.0.0, x.0.1), x.1));
      case 7 =>
        var x :- ReadRelationOp(bytes, tag.1, depth + 1);
        r := Some((Retract(x.0.0, x.0.1), x.1));
      case 8 =>
        var x :- ReadRelationOp(bytes, tag.1, depth + 1);
        r := Some((Emit(x.0.0, x.0.1), x.1));
      case 9 =>
        var capability :- ReadText(bytes, tag.1);
        var args :- ReadExprs(bytes, capability.1, depth + 1);
        var dests :- ReadStrs(bytes, args.1);
        r := Some((Invoke(capability.0, args.0, dests.0), dests.1));
      case _ => r := None;
    }
  }

  method ReadOps(bytes: Bytes, pos: nat, depth: nat) returns (r: Option<(seq<Op>, nat)>)
    requires pos <= |bytes|
    ensures Agrees(bytes, r, GetOpList(bytes[pos..], depth))
    decreases |bytes| - pos, 1
  {
    hide GetU32, GetOp, GetMany, SoFar;
    var count :- ReadU32(bytes, pos);
    var p := count.1;
    var xs: seq<Op> := [];
    ghost var get := OpReader(|bytes| - pos, depth);
    ghost var all := GetMany(get, count.0, bytes[p..]);
    NothingRead(all);
    for i := 0 to count.0
      invariant pos < p <= |bytes|
      invariant SoFar(all, xs, GetMany(get, count.0 - i, bytes[p..]))
    {
      NextRead(all, xs, get, count.0 - i, bytes[p..]);
      var x :- ReadOp(bytes, p, depth);
      xs, p := xs + [x.0], x.1;
    }
    NoneLeft(get, bytes[p..]);
    AllRead(all, xs, bytes[p..]);
    r := Some((xs, p));
  }

  /** The cursor ends where the bytes do, and what it read is what they stand for. */
  method ReadBehavior(bytes: Bytes) returns (r: Option<Behavior>)
    ensures r == DecodeBehavior(bytes)
    ensures r.Some? ==> Fits(r.value)
  {
    hide GetPred, GetStrList, GetOpList, Fits;
    DecodedFits(bytes);
    if bytes == [] || bytes[0] != FORMAT_VERSION {
      return None;
    }
    var guard :- ReadPred(bytes, 1, 0);
    var parameters :- ReadStrs(bytes, guard.1);
    var body :- ReadOps(bytes, parameters.1, 0);
    r := if body.1 != |bytes| then None else Some(Behavior(guard.0, parameters.0, body.0));
  }
}
