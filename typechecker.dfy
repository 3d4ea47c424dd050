/**
 * The operator typing rules of the DDP typechecker (package
 * `typechecker`). The typechecker visits an expression tree, leaves the type
 * of the last visited expression in `latestReturnedType`, passes every
 * complaint to its error handler and remembers in `Errored` that something
 * was wrong. `TypecheckAst` runs it over the statements of an AST and marks
 * the AST faulty when it erred.
 *
 * The rules are specified by pure functions (`UnaryRule`, `BinaryRule`,
 * `TernaryRule`, `IndexingRule`, and `Check` for a whole expression) whose
 * contracts state the typing table; the typechecker's visit methods are proved
 * to follow them.
 */
module Typechecker {

  /** The primitive kinds of DDP values; `Nichts` is the type of no value. */
  datatype Primitive = Zahl | Kommazahl | Boolean | Buchstabe | Text | Nichts

  /** `token.DDPType`: a primitive kind, or a list of that kind. */
  datatype DDPType = DDPType(primitive: Primitive, isList: bool)

  const IntType := DDPType(Zahl, false)
  const FloatType := DDPType(Kommazahl, false)
  const BoolType := DDPType(Boolean, false)
  const CharType := DDPType(Buchstabe, false)
  const StringType := DDPType(Text, false)
  const VoidType := DDPType(Nichts, false)

  function PrimitiveOf(p: Primitive): DDPType { DDPType(p, false) }
  function ListOf(p: Primitive): DDPType { DDPType(p, true) }

  /** `IsNumeric`: a single integer or floating-point number. */
  predicate IsNumeric(t: DDPType): (b: bool)
    ensures b ==> Proper(t) && !t.isList
  {
    t == IntType || t == FloatType
  }

  /** A type that denotes values: any kind but `Nichts`, single or list. */
  predicate Proper(t: DDPType) { t.primitive != Nichts }

  /** The unary operator tokens the typechecker knows, and any other token. */
  datatype UnaryOp = Betrag | Negate | Nicht | Negiere | LogischNicht | Laenge | Groesse | OtherUnary

  /** The binary operator tokens the typechecker knows (with their synonyms), and any other token. */
  datatype BinaryOp =
    | Verkettet
    | Plus | Addiere | Erhoehe
    | Minus | Subtrahiere | Verringere
    | Mal | Multipliziere | Vervielfache
    | Stelle
    | Durch | Dividiere | Teile | Hoch | Logarithmus
    | Modulo
    | Und | Oder
    | Links | Rechts
    | Gleich | Ungleich
    | GroesserOder | Kleiner | KleinerOder | Groesser
    | LogischOder | LogischUnd | Kontra
    | OtherBinary

  /** The ternary operator tokens: `VON ... BIS` and any other token. */
  datatype TernaryOp = VonBis | OtherTernary

  /** The groups of binary operators that `VisitBinaryExpr` types alike (the cases of its switch). */
  datatype OperatorClass = Joining | Arithmetic | Indexed | Division | IntegerOnly | BooleanOnly | Equality | Ordering | Unknown

  function ClassOf(op: BinaryOp): OperatorClass
  {
    match op
    case Verkettet => Joining
    case Plus | Addiere | Erhoehe | Minus | Subtrahiere | Verringere | Mal | Multipliziere | Vervielfache => Arithmetic
    case Stelle => Indexed
    case Durch | Dividiere | Teile | Hoch | Logarithmus => Division
    case Modulo | Links | Rechts | LogischOder | LogischUnd | Kontra => IntegerOnly
    case Und | Oder => BooleanOnly
    case Gleich | Ungleich => Equality
    case GroesserOder | Kleiner | KleinerOder | Groesser => Ordering
    case OtherBinary => Unknown
  }

  /** The complaints the typechecker passes to its error handler (message texts and positions are not modelled). */
  datatype TypeError =
    | OperandExpected(uop: UnaryOp, got: DDPType, expected: seq<DDPType>)  // errExpected
    | LengthOperand(got: DDPType)                                           // LÄNGE on a non-text, non-list
    | UnknownUnary
    | CombinationBin(bop: BinaryOp, lhs: DDPType, rhs: DDPType)            // errExpectedBin
    | ConcatMismatch(lhs: DDPType, rhs: DDPType)                            // VERKETTET on two kinds
    | NotIndexable(got: DDPType)                                            // STELLE on a non-text, non-list
    | IndexNotInt(got: DDPType)                                             // STELLE with a non-number index
    | UnknownBinary
    | SliceOperand(got: DDPType)                                            // VON_BIS on a non-text, non-list
    | CombinationTern(top: TernaryOp, lhs: DDPType, mid: DDPType, rhs: DDPType)  // errExpectedTern
    | UnknownTernary
    | Unassignable(got: DDPType, declared: DDPType)                         // a variable's initial value

  /** The expressions whose typing the model covers. */
  datatype Expr =
    | IntLit | FloatLit | BoolLit | CharLit | StringLit
    | Ident(name: string)
    | BadExpr
    | Grouping(inner: Expr)
    | Indexing(lhs: Expr, index: Expr)
    | Unary(uop: UnaryOp, rhs: Expr)
    | Binary(bop: BinaryOp, lhs: Expr, rhs: Expr)
    | Ternary(top: TernaryOp, lhs: Expr, mid: Expr, rhs: Expr)

  /** The statements whose checking the model covers. */
  datatype Stmt =
    | ExprStmt(expr: Expr)
    | VarDecl(declared: DDPType, init: Expr)
    | BadStmt

  /** The outcome of typing one node: the type it leaves and what was reported, in order. */
  datatype Judgement = Judgement(typ: DDPType, errs: seq<TypeError>)

  /** The closure `validate`: both operand types must be among the valid ones. */
  function Validate(op: BinaryOp, lhs: DDPType, rhs: DDPType, valid: seq<DDPType>): (r: seq<TypeError>)
    ensures r == [] <==> lhs in valid && rhs in valid
    ensures r != [] ==> r == [CombinationBin(op, lhs, rhs)]
  {
    if lhs in valid && rhs in valid then [] else [CombinationBin(op, lhs, rhs)]
  }

  /** `validate` with the numbers as the valid types. */
  function NumericOperands(op: BinaryOp, lhs: DDPType, rhs: DDPType): (r: seq<TypeError>)
    ensures r == [] <==> IsNumeric(lhs) && IsNumeric(rhs)
    ensures |r| <= 1
  {
    Validate(op, lhs, rhs, [IntType, FloatType])
  }

  /** `validate` with the integers as the only valid type. */
  function IntegerOperands(op: BinaryOp, lhs: DDPType, rhs: DDPType): (r: seq<TypeError>)
    ensures r == [] <==> lhs == IntType && rhs == IntType
    ensures |r| <= 1
  {
    Validate(op, lhs, rhs, [IntType])
  }

  /** `validate` with the truth values as the only valid type. */
  function BooleanOperands(op: BinaryOp, lhs: DDPType, rhs: DDPType): (r: seq<TypeError>)
    ensures r == [] <==> lhs == BoolType && rhs == BoolType
    ensures |r| <= 1
  {
    Validate(op, lhs, rhs, [BoolType])
  }

  /**
   * `VERKETTET`: two single operands with a text among them join into a
   * text and may only be texts and letters; everything else joins into a
   * list of the left operand's kind, which both must share.
   */
  function ConcatRule(lhs: DDPType, rhs: DDPType): (r: Judgement)
    ensures !lhs.isList && !rhs.isList && (lhs == StringType || rhs == StringType) ==>
      && r.typ == StringType
      && (r.errs == [] <==> (lhs == StringType || lhs == CharType) && (rhs == StringType || rhs == CharType))
    ensures !(!lhs.isList && !rhs.isList && (lhs == StringType || rhs == StringType)) ==>
      r.typ == ListOf(lhs.primitive) && (r.errs == [] <==> lhs.primitive == rhs.primitive)
    ensures |r.errs| <= 1
  {
    if !lhs.isList && !rhs.isList && (lhs == StringType || rhs == StringType) then
      Judgement(StringType, Validate(Verkettet, lhs, rhs, [StringType, CharType]))
    else
      Judgement(ListOf(lhs.primitive), if lhs.primitive != rhs.primitive then [ConcatMismatch(lhs, rhs)] else [])
  }

  /**
   * `STELLE`: the operand must be a text or a list and the index a number;
   * a list yields its element type, a text a letter, and anything else
   * leaves the index's type.
   */
  function StelleRule(lhs: DDPType, rhs: DDPType): (r: Judgement)
    ensures r.errs == [] <==> (lhs.isList || lhs == StringType) && rhs == IntType
    ensures lhs.isList ==> r.typ == PrimitiveOf(lhs.primitive)
    ensures lhs == StringType ==> r.typ == CharType
    ensures !lhs.isList && lhs != StringType ==> r.typ == rhs
    ensures |r.errs| <= 2
  {
    Judgement(
      if lhs.isList then PrimitiveOf(lhs.primitive) else if lhs == StringType then CharType else rhs,
      (if !lhs.isList && lhs != StringType then [NotIndexable(lhs)] else []) +
      (if rhs != IntType then [IndexNotInt(rhs)] else []))
  }

  /**
   * `VisitUnaryExpr` on an operand of type rhs. The operators that do not
   * set `latestReturnedType` leave the operand's type in it.
   */
  function UnaryRule(op: UnaryOp, rhs: DDPType): (r: Judgement)
    ensures (op.Betrag? || op.Negate?) ==> r.typ == rhs && (r.errs == [] <==> IsNumeric(rhs))
    ensures op.Nicht? ==> r.typ == BoolType && (r.errs == [] <==> rhs == BoolType)
    ensures op.Negiere? ==> r.typ == rhs && (r.errs == [] <==> rhs == BoolType || rhs == IntType)
    ensures op.LogischNicht? ==> r.typ == IntType && (r.errs == [] <==> rhs == IntType)
    ensures op.Laenge? ==> r.typ == IntType && (r.errs == [] <==> rhs.isList || rhs.primitive == Text)
    ensures op.Groesse? ==> r.typ == IntType && r.errs == []
    ensures op.OtherUnary? ==> r.typ == rhs && r.errs == [UnknownUnary]
    ensures |r.errs| <= 1
  {
    match op
    case Betrag | Negate =>
      Judgement(rhs, if !IsNumeric(rhs) then [OperandExpected(op, rhs, [IntType, FloatType])] else [])
    case Nicht =>
      Judgement(BoolType, if rhs !in [BoolType] then [OperandExpected(op, rhs, [BoolType])] else [])
    case Negiere =>
      Judgement(rhs, if rhs !in [BoolType, IntType] then [OperandExpected(op, rhs, [BoolType, IntType])] else [])
    case LogischNicht =>
      Judgement(IntType, if rhs !in [IntType] then [OperandExpected(op, rhs, [IntType])] else [])
    case Laenge =>
      Judgement(IntType, if !rhs.isList && rhs.primitive != Text then [LengthOperand(rhs)] else [])
    case Groesse =>
      Judgement(IntType, [])
    case OtherUnary =>
      Judgement(rhs, [UnknownUnary])
  }

  /**
   * `VisitBinaryExpr` on operands of types lhs and rhs. Where no rule sets
   * `latestReturnedType`, the type of the right operand stays in it.
   */
  function BinaryRule(op: BinaryOp, lhs: DDPType, rhs: DDPType): (r: Judgement)
    ensures ClassOf(op) == Arithmetic ==>
      && (r.errs == [] <==> IsNumeric(lhs) && IsNumeric(rhs))
      && (r.typ == IntType <==> lhs == IntType && rhs == IntType)
      && (r.typ != IntType ==> r.typ == FloatType)
    ensures ClassOf(op) == Division ==> r.typ == FloatType && (r.errs == [] <==> IsNumeric(lhs) && IsNumeric(rhs))
    ensures ClassOf(op) == IntegerOnly ==> r.typ == IntType && (r.errs == [] <==> lhs == IntType && rhs == IntType)
    ensures ClassOf(op) == BooleanOnly ==> r.typ == BoolType && (r.errs == [] <==> lhs == BoolType && rhs == BoolType)
    ensures ClassOf(op) == Equality ==> r.typ == BoolType && (r.errs == [] <==> lhs == rhs)
    ensures ClassOf(op) == Ordering ==> r.typ == BoolType && (r.errs == [] <==> IsNumeric(lhs) && IsNumeric(rhs))
    ensures ClassOf(op) == Joining ==> r == ConcatRule(lhs, rhs)
    ensures ClassOf(op) == Indexed ==> r == StelleRule(lhs, rhs)
    ensures ClassOf(op) == Unknown ==> r.typ == rhs && r.errs == [UnknownBinary]
    ensures |r.errs| <= 2
  {
    match ClassOf(op)
    case Joining => ConcatRule(lhs, rhs)
    case Arithmetic =>
      Judgement(if lhs == IntType && rhs == IntType then IntType else FloatType, NumericOperands(op, lhs, rhs))
    case Indexed => StelleRule(lhs, rhs)
    case Division => Judgement(FloatType, NumericOperands(op, lhs, rhs))
    case IntegerOnly => Judgement(IntType, IntegerOperands(op, lhs, rhs))
    case BooleanOnly => Judgement(BoolType, BooleanOperands(op, lhs, rhs))
    case Equality => Judgement(BoolType, if lhs != rhs then [CombinationBin(op, lhs, rhs)] else [])
    case Ordering => Judgement(BoolType, NumericOperands(op, lhs, rhs))
    case Unknown => Judgement(rhs, [UnknownBinary])
  }

  /**
   * `VisitTernaryExpr` on operands of types lhs, mid and rhs: `VON ... BIS`
   * slices a text or a list by two numbers.
   */
  function TernaryRule(op: TernaryOp, lhs: DDPType, mid: DDPType, rhs: DDPType): (r: Judgement)
    ensures op.VonBis? ==>
      && (r.errs == [] <==> (lhs.isList || lhs == StringType) && mid == IntType && rhs == IntType)
      && (lhs.isList ==> r.typ == ListOf(lhs.primitive))
      && (lhs == StringType ==> r.typ == StringType)
      && (!lhs.isList && lhs != StringType ==> r.typ == rhs)
    ensures op.OtherTernary? ==> r.typ == rhs && r.errs == [UnknownTernary]
    ensures |r.errs| <= 2
  {
    match op
    case VonBis =>
      Judgement(
        if lhs.isList then ListOf(lhs.primitive) else if lhs == StringType then StringType else rhs,
        (if !lhs.isList && lhs != StringType then [SliceOperand(lhs)] else []) +
        (if !(mid in [IntType] && rhs in [IntType]) then [CombinationTern(op, lhs, mid, rhs)] else []))
    case OtherTernary =>
      Judgement(rhs, [UnknownTernary])
  }

  /** The complaint `VisitIndexing` makes about the index. */
  function IndexErrors(index: DDPType): seq<TypeError>
  {
    if index != IntType then [IndexNotInt(index)] else []
  }

  /** The complaint `VisitIndexing` makes about the indexed operand. */
  function IndexedErrors(lhs: DDPType): seq<TypeError>
  {
    if !lhs.isList && lhs.primitive != Text then [NotIndexable(lhs)] else []
  }

  /**
   * `VisitIndexing` on an operand of type lhs and an index of type index:
   * the element type of a list, and a letter for anything else.
   */
  function IndexingRule(lhs: DDPType, index: DDPType): (r: Judgement)
    ensures r.errs == [] <==> index == IntType && (lhs.isList || lhs.primitive == Text)
    ensures lhs.isList ==> r.typ == PrimitiveOf(lhs.primitive)
    ensures !lhs.isList ==> r.typ == CharType
    ensures |r.errs| <= 2
  {
    Judgement(if lhs.isList then PrimitiveOf(lhs.primitive) else CharType, IndexErrors(index) + IndexedErrors(lhs))
  }

  /** The variable table `CurrentTable` as the typechecker reads it: a name's declared type. */
  type Symbols = map<string, DDPType>

  /**
   * What visiting e reports and leaves in `latestReturnedType`: operands
   * are visited left to right (for an indexing, the index first), and each
   * node's complaints follow those of its operands.
   */
  function Check(syms: Symbols, e: Expr): Judgement
    decreases e
  {
    match e
    case IntLit => Judgement(IntType, [])
    case FloatLit => Judgement(FloatType, [])
    case BoolLit => Judgement(BoolType, [])
    case CharLit => Judgement(CharType, [])
    case StringLit => Judgement(StringType, [])
    case Ident(name) => Judgement(if name in syms then syms[name] else VoidType, [])
    case BadExpr => Judgement(VoidType, [])
    case Grouping(inner) => Check(syms, inner)
    case Indexing(lhs, index) =>
      var i, l := Check(syms, index), Check(syms, lhs);
      Judgement(IndexingRule(l.typ, i.typ).typ, i.errs + IndexErrors(i.typ) + l.errs + IndexedErrors(l.typ))
    case Unary(op, rhs) =>
      var r := Check(syms, rhs);
      var u := UnaryRule(op, r.typ);
      Judgement(u.typ, r.errs + u.errs)
    case Binary(op, lhs, rhs) =>
      var l, r := Check(syms, lhs), Check(syms, rhs);
      var b := BinaryRule(op, l.typ, r.typ);
      Judgement(b.typ, l.errs + r.errs + b.errs)
    case Ternary(op, lhs, mid, rhs) =>
      var l, m, r := Check(syms, lhs), Check(syms, mid), Check(syms, rhs);
      var t := TernaryRule(op, l.typ, m.typ, r.typ);
      Judgement(t.typ, l.errs + m.errs + r.errs + t.errs)
  }

  /** Whether e holds a `BadExpr`, which sets `Errored` without a report. */
  predicate HasBad(e: Expr)
    decreases e
  {
    match e
    case BadExpr => true
    case Grouping(inner) => HasBad(inner)
    case Indexing(lhs, index) => HasBad(lhs) || HasBad(index)
    case Unary(_, rhs) => HasBad(rhs)
    case Binary(_, lhs, rhs) => HasBad(lhs) || HasBad(rhs)
    case Ternary(_, lhs, mid, rhs) => HasBad(lhs) || HasBad(mid) || HasBad(rhs)
    case _ => false
  }

  /** Whether visiting e sets `Errored`. */
  predicate Faulty(syms: Symbols, e: Expr)
  {
    Check(syms, e).errs != [] || HasBad(e)
  }

  /** Every name in e is declared and e holds no `BadExpr`. */
  predicate Resolved(syms: Symbols, e: Expr)
    decreases e
  {
    match e
    case Ident(name) => name in syms
    case BadExpr => false
    case Grouping(inner) => Resolved(syms, inner)
    case Indexing(lhs, index) => Resolved(syms, lhs) && Resolved(syms, index)
    case Unary(_, rhs) => Resolved(syms, rhs)
    case Binary(_, lhs, rhs) => Resolved(syms, lhs) && Resolved(syms, rhs)
    case Ternary(_, lhs, mid, rhs) => Resolved(syms, lhs) && Resolved(syms, mid) && Resolved(syms, rhs)
    case _ => true
  }

  /**
   * Type soundness of the operator rules: an expression over declared
   * variables of value types that the typechecker accepts without complaint
   * has a value type; it never leaves `Nichts` behind.
   */
  lemma {:induction false} AcceptedIsProper(syms: Symbols, e: Expr)
    requires forall name | name in syms :: Proper(syms[name])
    requires Resolved(syms, e) && Check(syms, e).errs == []
    ensures Proper(Check(syms, e).typ)
    decreases e
  {
    match e
    case Grouping(inner) =>
      AcceptedIsProper(syms, inner);
    case Indexing(lhs, index) =>
      AcceptedIsProper(syms, lhs);
    case Unary(op, rhs) =>
      AcceptedIsProper(syms, rhs);
    case Binary(op, lhs, rhs) =>
      AcceptedIsProper(syms, lhs);
      AcceptedIsProper(syms, rhs);
    case Ternary(op, lhs, mid, rhs) =>
      AcceptedIsProper(syms, lhs);
    case _ =>
  }

  /** `isOfType`: whether t is one of types. */
  method IsOfType(t: DDPType, types: seq<DDPType>) returns (b: bool)
    ensures b <==> t in types
  {
    for i := 0 to |types|
      invariant t !in types[..i]
    {
      if t == types[i] {
        return true;
      }
    }
    return false;
  }

  /** `isOfTypeBin`: whether t1 and t2 are both among types. */
  method IsOfTypeBin(t1: DDPType, t2: DDPType, types: seq<DDPType>) returns (b: bool)
    ensures b <==> t1 in types && t2 in types
  {
    b := IsOfType(t1, types);
    if b {
      b := IsOfType(t2, types);
    }
  }

  /** What checking statement s reports. */
  function StmtErrors(syms: Symbols, s: Stmt): seq<TypeError>
  {
    match s
    case ExprStmt(e) => Check(syms, e).errs
    case VarDecl(declared, init) =>
      var j := Check(syms, init);
      j.errs + (if j.typ != declared then [Unassignable(j.typ, declared)] else [])
    case BadStmt => []
  }

  /** Whether checking statement s sets `Errored`. */
  predicate StmtFaulty(syms: Symbols, s: Stmt)
  {
    match s
    case ExprStmt(e) => Faulty(syms, e)
    case VarDecl(_, init) => Faulty(syms, init) || StmtErrors(syms, s) != []
    case BadStmt => true
  }

  /** What checking the statements ss in order reports. */
  function Reports(syms: Symbols, ss: seq<Stmt>): seq<TypeError>
    decreases |ss|
  {
    if ss == [] then [] else Reports(syms, ss[..|ss| - 1]) + StmtErrors(syms, ss[|ss| - 1])
  }

  /** Whether checking the statements ss in order sets `Errored`, one statement at a time. */
  predicate Erred(syms: Symbols, ss: seq<Stmt>)
    decreases |ss|
  {
    ss != [] && (Erred(syms, ss[..|ss| - 1]) || StmtFaulty(syms, ss[|ss| - 1]))
  }

  /** The typechecker erred on a statement list exactly when it erred on one of its statements. */
  lemma {:induction false} ErredSome(syms: Symbols, ss: seq<Stmt>)
    ensures Erred(syms, ss) <==> exists k | 0 <= k < |ss| :: StmtFaulty(syms, ss[k])
    decreases |ss|
  {
    if ss != [] {
      var init := ss[..|ss| - 1];
      ErredSome(syms, init);
      if exists k | 0 <= k < |init| :: StmtFaulty(syms, init[k]) {
        var k :| 0 <= k < |init| && StmtFaulty(syms, init[k]);
        assert ss[k] == init[k];
      }
      if exists k | 0 <= k < |ss| :: StmtFaulty(syms, ss[k]) {
        var k :| 0 <= k < |ss| && StmtFaulty(syms, ss[k]);
        if k < |init| {
          assert init[k] == ss[k];
        }
      }
    }
  }

  /** Every complaint is a reason to err: where something is reported, the typechecker has erred. */
  lemma {:induction false} ReportsErred(syms: Symbols, ss: seq<Stmt>)
    ensures Reports(syms, ss) != [] ==> Erred(syms, ss)
    decreases |ss|
  {
    if ss != [] {
      ReportsErred(syms, ss[..|ss| - 1]);
    }
  }

  // The steps of one visit, on the values the typechecker's state takes: the
  // reports and the flag before and after each operand and each check.

  /**
   * Reports handed on one after another are the concatenation of what each step
   * added. Stated once, so the visit lemmas below get it without a search.
   */
  lemma {:induction false} Joined(r0: seq<TypeError>, a: seq<TypeError>, b: seq<TypeError>)
    ensures r0 + a + b == r0 + (a + b)
  {
  }

  lemma {:induction false} IndexingVisit(syms: Symbols, e: Expr, r0: seq<TypeError>, b0: bool, r1: seq<TypeError>, b1: bool,
                                         r2: seq<TypeError>, b2: bool, r3: seq<TypeError>, b3: bool,
                                         r4: seq<TypeError>, b4: bool, t: DDPType)
    requires e.Indexing?
    requires r1 == r0 + Check(syms, e.index).errs && b1 == (b0 || |r1| > |r0| || HasBad(e.index))
    requires r2 == r1 + IndexErrors(Check(syms, e.index).typ) && b2 == (b1 || |r2| > |r1|)
    requires r3 == r2 + Check(syms, e.lhs).errs && b3 == (b2 || |r3| > |r2| || HasBad(e.lhs))
    requires r4 == r3 + IndexedErrors(Check(syms, e.lhs).typ) && b4 == (b3 || |r4| > |r3|)
    requires t == IndexingRule(Check(syms, e.lhs).typ, Check(syms, e.index).typ).typ
    ensures t == Check(syms, e).typ && r4 == r0 + Check(syms, e).errs && b4 == (b0 || |r4| > |r0| || HasBad(e))
  {
    var i, l := Check(syms, e.index), Check(syms, e.lhs);
    Joined(r0, i.errs, IndexErrors(i.typ));
    Joined(r0, i.errs + IndexErrors(i.typ), l.errs);
    Joined(r0, i.errs + IndexErrors(i.typ) + l.errs, IndexedErrors(l.typ));
  }

  lemma {:induction false} UnaryVisit(syms: Symbols, e: Expr, r0: seq<TypeError>, b0: bool, r1: seq<TypeError>, b1: bool,
                                      r2: seq<TypeError>, b2: bool, t: DDPType)
    requires e.Unary?
    requires r1 == r0 + Check(syms, e.rhs).errs && b1 == (b0 || |r1| > |r0| || HasBad(e.rhs))
    requires var u := UnaryRule(e.uop, Check(syms, e.rhs).typ); t == u.typ && r2 == r1 + u.errs && b2 == (b1 || u.errs != [])
    ensures t == Check(syms, e).typ && r2 == r0 + Check(syms, e).errs && b2 == (b0 || |r2| > |r0| || HasBad(e))
  {
    var r, u := Check(syms, e.rhs), UnaryRule(e.uop, Check(syms, e.rhs).typ);
    Joined(r0, r.errs, u.errs);
  }

  lemma {:induction false} BinaryVisit(syms: Symbols, e: Expr, r0: seq<TypeError>, b0: bool, r1: seq<TypeError>, b1: bool,
                                       r2: seq<TypeError>, b2: bool, r3: seq<TypeError>, b3: bool, t: DDPType)
    requires e.Binary?
    requires r1 == r0 + Check(syms, e.lhs).errs && b1 == (b0 || |r1| > |r0| || HasBad(e.lhs))
    requires r2 == r1 + Check(syms, e.rhs).errs && b2 == (b1 || |r2| > |r1| || HasBad(e.rhs))
    requires var b := BinaryRule(e.bop, Check(syms, e.lhs).typ, Check(syms, e.rhs).typ);
      t == b.typ && r3 == r2 + b.errs && b3 == (b2 || b.errs != [])
    ensures t == Check(syms, e).typ && r3 == r0 + Check(syms, e).errs && b3 == (b0 || |r3| > |r0| || HasBad(e))
  {
    var l, r := Check(syms, e.lhs), Check(syms, e.rhs);
    var b := BinaryRule(e.bop, l.typ, r.typ);
    Joined(r0, l.errs, r.errs);
    Joined(r0, l.errs + r.errs, b.errs);
  }

  lemma {:induction false} TernaryVisit(syms: Symbols, e: Expr, r0: seq<TypeError>, b0: bool, r1: seq<TypeError>, b1: bool,
                                        r2: seq<TypeError>, b2: bool, r3: seq<TypeError>, b3: bool,
                                        r4: seq<TypeError>, b4: bool, t: DDPType)
    requires e.Ternary?
    requires r1 == r0 + Check(syms, e.lhs).errs && b1 == (b0 || |r1| > |r0| || HasBad(e.lhs))
    requires r2 == r1 + Check(syms, e.mid).errs && b2 == (b1 || |r2| > |r1| || HasBad(e.mid))
    requires r3 == r2 + Check(syms, e.rhs).errs && b3 == (b2 || |r3| > |r2| || HasBad(e.rhs))
    requires var x := TernaryRule(e.top, Check(syms, e.lhs).typ, Check(syms, e.mid).typ, Check(syms, e.rhs).typ);
      t == x.typ && r4 == r3 + x.errs && b4 == (b3 || x.errs != [])
    ensures t == Check(syms, e).typ && r4 == r0 + Check(syms, e).errs && b4 == (b0 || |r4| > |r0| || HasBad(e))
  {
    var l, m, r := Check(syms, e.lhs), Check(syms, e.mid), Check(syms, e.rhs);
    var x := TernaryRule(e.top, l.typ, m.typ, r.typ);
    Joined(r0, l.errs, m.errs);
    Joined(r0, l.errs + m.errs, r.errs);
    Joined(r0, l.errs + m.errs + r.errs, x.errs);
  }

  /**
   * The typechecker's state: the table of variables it reads, whether it has
   * erred, the type of the last visited expression, and the complaints its
   * error handler received in order.
   */
  class Typechecker {
    const symbols: Symbols
    var errored: bool
    var latest: DDPType
    var reports: seq<TypeError>

    /** `New`: nothing erred or reported yet, and the last type is `Nichts`. */
    constructor(symbols: Symbols)
      ensures this.symbols == symbols && !errored && latest == VoidType && reports == []
    {
      this.symbols := symbols;
      errored := false;
      latest := VoidType;
      reports := [];
    }

    /** The state after visiting e from reports r0 and flag b0. */
    ghost predicate Visited(e: Expr, r0: seq<TypeError>, b0: bool)
      reads this
    {
      && latest == Check(symbols, e).typ
      && reports == r0 + Check(symbols, e).errs
      && errored == (b0 || |reports| > |r0| || HasBad(e))
    }

    /** `err`: sets `Errored` and hands the complaint to the error handler. */
    method Err(e: TypeError)
      modifies this`errored, this`reports
      ensures errored && reports == old(reports) + [e]
    {
      errored := true;
      reports := reports + [e];
    }

    /** `Evaluate`: visit e and return the type it leaves. */
    method Evaluate(e: Expr) returns (t: DDPType)
      modifies this`errored, this`reports, this`latest
      ensures Visited(e, old(reports), old(errored)) && t == latest
      decreases e, 2
    {
      Visit(e);
      t := latest;
    }

    /** `Accept` of an expression: the visit method of its node. */
    method Visit(e: Expr)
      modifies this`errored, this`reports, this`latest
      ensures Visited(e, old(reports), old(errored))
      decreases e, 1
    {
      match e
      case IntLit => latest := IntType;
      case FloatLit => latest := FloatType;
      case BoolLit => latest := BoolType;
      case CharLit => latest := CharType;
      case StringLit => latest := StringType;
      case Ident(name) =>
        latest := if name in symbols then symbols[name] else VoidType;
      case BadExpr =>
        errored := true;
        latest := VoidType;
      case Grouping(inner) =>
        Visit(inner);
      case Indexing(_, _) =>
        VisitIndexing(e);
      case Unary(_, _) =>
        VisitUnaryExpr(e);
      case Binary(_, _, _) =>
        VisitBinaryExpr(e);
      case Ternary(_, _, _, _) =>
        VisitTernaryExpr(e);
    }

    /** `VisitIndexing`: the index must be a number and the operand a text or a list. */
    method VisitIndexing(e: Expr)
      requires e.Indexing?
      modifies this`errored, this`reports, this`latest
      ensures Visited(e, old(reports), old(errored))
      decreases e, 0
    {
      ghost var r0, b0 := reports, errored;
      var typ := Evaluate(e.index);
      ghost var r1, b1 := reports, errored;
      if typ != IntType {
        Err(IndexNotInt(typ));
      }
      ghost var r2, b2 := reports, errored;
      var lhs := Evaluate(e.lhs);
      ghost var r3, b3 := reports, errored;
      if !lhs.isList && lhs.primitive != Text {
        Err(NotIndexable(lhs));
      }
      if lhs.isList {
        latest := PrimitiveOf(lhs.primitive);
      } else {
        latest := CharType;
      }
      IndexingVisit(symbols, e, r0, b0, r1, b1, r2, b2, r3, b3, reports, errored, latest);
    }

    /** `VisitUnaryExpr`. */
    method VisitUnaryExpr(e: Expr)
      requires e.Unary?
      modifies this`errored, this`reports, this`latest
      ensures Visited(e, old(reports), old(errored))
      decreases e, 0
    {
      ghost var r0, b0 := reports, errored;
      var rhs := Evaluate(e.rhs);
      ghost var r1, b1 := reports, errored;
      ApplyUnary(e.uop, rhs);
      UnaryVisit(symbols, e, r0, b0, r1, b1, reports, errored, latest);
    }

    /** The operator switch of `VisitUnaryExpr`, on an operand of type rhs already left in `latestReturnedType`. */
    method ApplyUnary(op: UnaryOp, rhs: DDPType)
      requires latest == rhs
      modifies this`errored, this`reports, this`latest
      ensures latest == UnaryRule(op, rhs).typ
      ensures reports == old(reports) + UnaryRule(op, rhs).errs
      ensures errored == (old(errored) || UnaryRule(op, rhs).errs != [])
    {
      match op
      case Betrag | Negate =>
        if !IsNumeric(rhs) {
          Err(OperandExpected(op, rhs, [IntType, FloatType]));
        }
      case Nicht =>
        var ok := IsOfType(rhs, [BoolType]);
        if !ok {
          Err(OperandExpected(op, rhs, [BoolType]));
        }
        latest := BoolType;
      case Negiere =>
        var ok := IsOfType(rhs, [BoolType, IntType]);
        if !ok {
          Err(OperandExpected(op, rhs, [BoolType, IntType]));
        }
      case LogischNicht =>
        var ok := IsOfType(rhs, [IntType]);
        if !ok {
          Err(OperandExpected(op, rhs, [IntType]));
        }
        latest := IntType;
      case Laenge =>
        if !rhs.isList && rhs.primitive != Text {
          Err(LengthOperand(rhs));
        }
        latest := IntType;
      case Groesse =>
        latest := IntType;
      case OtherUnary =>
        Err(UnknownUnary);
    }

    /** The closure `validate` of `VisitBinaryExpr`. */
    method ValidateBin(op: BinaryOp, lhs: DDPType, rhs: DDPType, valid: seq<DDPType>)
      modifies this`errored, this`reports
      ensures reports == old(reports) + Validate(op, lhs, rhs, valid)
      ensures errored == (old(errored) || Validate(op, lhs, rhs, valid) != [])
    {
      var ok := IsOfTypeBin(lhs, rhs, valid);
      if !ok {
        Err(CombinationBin(op, lhs, rhs));
      }
    }

    /** `VisitBinaryExpr`. */
    method VisitBinaryExpr(e: Expr)
      requires e.Binary?
      modifies this`errored, this`reports, this`latest
      ensures Visited(e, old(reports), old(errored))
      decreases e, 0
    {
      ghost var r0, b0 := reports, errored;
      var lhs := Evaluate(e.lhs);
      ghost var r1, b1 := reports, errored;
      var rhs := Evaluate(e.rhs);
      ghost var r2, b2 := reports, errored;
      ApplyBinary(e.bop, lhs, rhs);
      BinaryVisit(symbols, e, r0, b0, r1, b1, r2, b2, reports, errored, latest);
    }

    /** The operator switch of `VisitBinaryExpr`, on operand types lhs and rhs, with rhs left in `latestReturnedType`. */
    method ApplyBinary(op: BinaryOp, lhs: DDPType, rhs: DDPType)
      requires latest == rhs
      modifies this`errored, this`reports, this`latest
      ensures latest == BinaryRule(op, lhs, rhs).typ
      ensures reports == old(reports) + BinaryRule(op, lhs, rhs).errs
      ensures errored == (old(errored) || BinaryRule(op, lhs, rhs).errs != [])
    {
      var k := ClassOf(op);
      if k == Joining {
        if !lhs.isList && !rhs.isList && (lhs == StringType || rhs == StringType) {
          ValidateBin(op, lhs, rhs, [StringType, CharType]);
          latest := StringType;
        } else {
          if lhs.primitive != rhs.primitive {
            Err(ConcatMismatch(lhs, rhs));
          }
          latest := ListOf(lhs.primitive);
        }
      } else if k == Arithmetic {
        ValidateBin(op, lhs, rhs, [IntType, FloatType]);
        if lhs == IntType && rhs == IntType {
          latest := IntType;
        } else {
          latest := FloatType;
        }
      } else if k == Indexed {
        ApplyStelle(lhs, rhs);
      } else if k == Division {
        ValidateBin(op, lhs, rhs, [IntType, FloatType]);
        latest := FloatType;
      } else if k == IntegerOnly {
        ValidateBin(op, lhs, rhs, [IntType]);
        latest := IntType;
      } else if k == BooleanOnly {
        ValidateBin(op, lhs, rhs, [BoolType]);
        latest := BoolType;
      } else if k == Equality {
        if lhs != rhs {
          Err(CombinationBin(op, lhs, rhs));
        }
        latest := BoolType;
      } else if k == Ordering {
        ValidateBin(op, lhs, rhs, [IntType, FloatType]);
        latest := BoolType;
      } else {
        Err(UnknownBinary);
      }
    }

    /** The `STELLE` case of `VisitBinaryExpr`. */
    method ApplyStelle(lhs: DDPType, rhs: DDPType)
      requires latest == rhs
      modifies this`errored, this`reports, this`latest
      ensures latest == StelleRule(lhs, rhs).typ
      ensures reports == old(reports) + StelleRule(lhs, rhs).errs
      ensures errored == (old(errored) || StelleRule(lhs, rhs).errs != [])
    {
      if !lhs.isList && lhs != StringType {
        Err(NotIndexable(lhs));
      }
      if rhs != IntType {
        Err(IndexNotInt(rhs));
      }
      if lhs.isList {
        latest := PrimitiveOf(lhs.primitive);
      } else if lhs == StringType {
        latest := CharType;
      }
    }

    /** `VisitTernaryExpr`. */
    method VisitTernaryExpr(e: Expr)
      requires e.Ternary?
      modifies this`errored, this`reports, this`latest
      ensures Visited(e, old(reports), old(errored))
      decreases e, 0
    {
      ghost var r0, b0 := reports, errored;
      var lhs := Evaluate(e.lhs);
      ghost var r1, b1 := reports, errored;
      var mid := Evaluate(e.mid);
      ghost var r2, b2 := reports, errored;
      var rhs := Evaluate(e.rhs);
      ghost var r3, b3 := reports, errored;
      ApplyTernary(e.top, lhs, mid, rhs);
      TernaryVisit(symbols, e, r0, b0, r1, b1, r2, b2, r3, b3, reports, errored, latest);
    }

    /** The operator switch of `VisitTernaryExpr`, on operand types lhs, mid and rhs, with rhs left in `latestReturnedType`. */
    method ApplyTernary(op: TernaryOp, lhs: DDPType, mid: DDPType, rhs: DDPType)
      requires latest == rhs
      modifies this`errored, this`reports, this`latest
      ensures latest == TernaryRule(op, lhs, mid, rhs).typ
      ensures reports == old(reports) + TernaryRule(op, lhs, mid, rhs).errs
      ensures errored == (old(errored) || TernaryRule(op, lhs, mid, rhs).errs != [])
    {
      match op
      case VonBis =>
        if !lhs.isList && lhs != StringType {
          Err(SliceOperand(lhs));
        }
        var ok := IsOfTypeBin(mid, rhs, [IntType]);
        if !ok {
          Err(CombinationTern(op, lhs, mid, rhs));
        }
        if lhs.isList {
          latest := ListOf(lhs.primitive);
        } else if lhs == StringType {
          latest := StringType;
        }
      case OtherTernary =>
        Err(UnknownTernary);
    }

    /** `Accept` of a statement: an expression statement, a variable declaration, or a bad statement. */
    method VisitStmt(s: Stmt)
      modifies this`errored, this`reports, this`latest
      ensures reports == old(reports) + StmtErrors(symbols, s)
      ensures errored == (old(errored) || StmtFaulty(symbols, s))
    {
      match s
      case ExprStmt(e) =>
        Visit(e);
      case VarDecl(declared, init) =>
        var initial := Evaluate(init);
        if initial != declared {
          Err(Unassignable(initial, declared));
        }
      case BadStmt =>
        errored := true;
        latest := VoidType;
    }
  }

  /** The checked program: its statements, its variable table, and whether it is faulty. */
  class Ast {
    const statements: seq<Stmt>
    const symbols: Symbols
    var faulty: bool

    constructor(statements: seq<Stmt>, symbols: Symbols)
      ensures this.statements == statements && this.symbols == symbols && !faulty
    {
      this.statements := statements;
      this.symbols := symbols;
      faulty := false;
    }
  }

  /**
   * `TypecheckAst`: check every statement in order with a fresh checker;
   * the AST becomes faulty when the typechecker erred (and stays faulty if it
   * was). The complaints the error handler receives are returned.
   */
  method TypecheckAst(ast: Ast) returns (handled: seq<TypeError>)
    modifies ast
    ensures ast.faulty == (old(ast.faulty) || Erred(ast.symbols, ast.statements))
    ensures handled == Reports(ast.symbols, ast.statements)
  {
    var checker := new Typechecker(ast.symbols);
    var ss := ast.statements;
    for i := 0 to |ss|
      invariant checker.symbols == ast.symbols && ast.faulty == old(ast.faulty)
      invariant checker.reports == Reports(ast.symbols, ss[..i])
      invariant checker.errored == Erred(ast.symbols, ss[..i])
    {
      assert ss[..i + 1][..i] == ss[..i];
      checker.VisitStmt(ss[i]);
    }
    assert ss[..|ss|] == ss;
    if checker.errored {
      ast.faulty := true;
    }
    handled := checker.reports;
  }
}
