/** The WHERE text the translator emits: its tokens, the boolean tree it stands for, the printer
    that numbers placeholders from left to right, and a reader with the precedence NOT over AND
    over OR that looks the placeholders up in the bound values. */
module SqlText {
  import opened MongoQuery

  /** What a predicate reads: a real column, a path inside `data`, a path inside the element of an
      EXISTS sub-select, or that element itself. */
  datatype Ref = Column(name: string) | Data(segs: seq<string>) | ElemField(segs: seq<string>) | Elem

  /** A value handed to the driver: as given, or rendered as JSON text. */
  datatype Param = Bound(v: Value) | JsonText(v: Value) | JsonTexts(vs: seq<Value>)

  datatype Kind = BoolKind | NumberKind | TextKind

  /** The kinds of the right-hand array of `= ANY`. */
  datatype ArrayKind = TextArray | NumberArray | JsonArray

  /** One predicate; `P` is a placeholder number in the text and a bound value in the tree. */
  datatype Pred<P> =
    | IsNull(r: Ref)
    | NotNull(r: Ref)
    | Constant(b: bool)
    | Compare(rel: Rel, kind: Kind, r: Ref, p: P)
    | AnyOf(akind: ArrayKind, r: Ref, p: P)
    | RegexMatch(r: Ref, ignoreCase: bool, p: P)
    | Modulo(r: Ref, p: P, q: P)
    | ArrayLength(r: Ref, p: P)
    | TypeOf(r: Ref, p: P)
    | Contains(r: Ref, p: P)

  /** `ExistsWhere` is the text up to and including the WHERE of the sub-select; its closing
      parenthesis is an ordinary `Close`. */
  datatype Token = Open | Close | AndTok | OrTok | NotTok | ExistsWhere(r: Ref) | PredTok(p: Pred<nat>)

  // The tree, in the shape of the SQL-92 search condition (section 8.12): an alternative is a
  // conjunction of factors, a factor an optional NOT and a primary.
  datatype Factor = Factor(negated: bool, prim: Primary)
  datatype Primary =
    | Test(p: Pred<Param>)
    | Paren(alts: seq<Conj>)
    | ExistsElem(r: Ref, body: Conj)
  datatype Conj = Conj(factors: seq<Factor>)

  // ---------- bound values, in textual order ----------

  function PredValues<P>(p: Pred<P>): seq<P> {
    match p
    case IsNull(_) => []
    case NotNull(_) => []
    case Constant(_) => []
    case Compare(_, _, _, v) => [v]
    case AnyOf(_, _, v) => [v]
    case RegexMatch(_, _, v) => [v]
    case Modulo(_, v, w) => [v, w]
    case ArrayLength(_, v) => [v]
    case TypeOf(_, v) => [v]
    case Contains(_, v) => [v]
  }

  function Values(fs: seq<Factor>): seq<Param>
    decreases fs
  {
    if fs == [] then [] else FactorValues(fs[0]) + Values(fs[1..])
  }

  function FactorValues(f: Factor): seq<Param>
    decreases f
  {
    PrimaryValues(f.prim)
  }

  function PrimaryValues(p: Primary): seq<Param>
    decreases p
  {
    match p
    case Test(t) => PredValues(t)
    case Paren(alts) => AltValues(alts)
    case ExistsElem(_, body) => Values(body.factors)
  }

  function AltValues(alts: seq<Conj>): seq<Param>
    decreases alts
  {
    if alts == [] then [] else Values(alts[0].factors) + AltValues(alts[1..])
  }

  // ---------- printing ----------

  /** The predicate with its placeholders numbered `n + 1`, `n + 2`. */
  function Number(p: Pred<Param>, n: nat): Pred<nat> {
    match p
    case IsNull(r) => IsNull(r)
    case NotNull(r) => NotNull(r)
    case Constant(b) => Constant(b)
    case Compare(rel, k, r, _) => Compare(rel, k, r, n + 1)
    case AnyOf(k, r, _) => AnyOf(k, r, n + 1)
    case RegexMatch(r, i, _) => RegexMatch(r, i, n + 1)
    case Modulo(r, _, _) => Modulo(r, n + 1, n + 2)
    case ArrayLength(r, _) => ArrayLength(r, n + 1)
    case TypeOf(r, _) => TypeOf(r, n + 1)
    case Contains(r, _) => Contains(r, n + 1)
  }

  function Print(fs: seq<Factor>, n: nat): seq<Token>
    decreases fs
  {
    if fs == [] then []
    else if |fs| == 1 then PrintFactor(fs[0], n)
    else PrintFactor(fs[0], n) + [AndTok] + Print(fs[1..], n + |FactorValues(fs[0])|)
  }

  function PrintFactor(f: Factor, n: nat): seq<Token>
    decreases f
  {
    (if f.negated then [NotTok] else []) + PrintPrimary(f.prim, n)
  }

  function PrintPrimary(p: Primary, n: nat): seq<Token>
    decreases p
  {
    match p
    case Test(t) => [PredTok(Number(t, n))]
    case Paren(alts) => [Open] + PrintAlts(alts, n) + [Close]
    case ExistsElem(r, body) => [ExistsWhere(r)] + Print(body.factors, n) + [Close]
  }

  function PrintAlts(alts: seq<Conj>, n: nat): seq<Token>
    decreases alts
  {
    if alts == [] then []
    else if |alts| == 1 then Print(alts[0].factors, n)
    else Print(alts[0].factors, n) + [OrTok] + PrintAlts(alts[1..], n + |Values(alts[0].factors)|)
  }

  // ---------- reading ----------

  datatype Read<+T> = Fail | Got(value: T, rest: seq<Token>)

  /** The predicate a token stands for, given the bound values; `$k` is the k-th of them. */
  function Resolve(p: Pred<nat>, ps: seq<Param>): Option<Pred<Param>> {
    if exists k | 0 <= k < |PredValues(p)| :: !(1 <= PredValues(p)[k] <= |ps|) then None
    else
      match p
      case IsNull(r) => Some(IsNull(r))
      case NotNull(r) => Some(NotNull(r))
      case Constant(b) => Some(Constant(b))
      case Compare(rel, k, r, i) => assert PredValues(p)[0] == i; Some(Compare(rel, k, r, ps[i - 1]))
      case AnyOf(k, r, i) => assert PredValues(p)[0] == i; Some(AnyOf(k, r, ps[i - 1]))
      case RegexMatch(r, c, i) => assert PredValues(p)[0] == i; Some(RegexMatch(r, c, ps[i - 1]))
      case Modulo(r, i, j) =>
        assert PredValues(p)[0] == i && PredValues(p)[1] == j; Some(Modulo(r, ps[i - 1], ps[j - 1]))
      case ArrayLength(r, i) => assert PredValues(p)[0] == i; Some(ArrayLength(r, ps[i - 1]))
      case TypeOf(r, i) => assert PredValues(p)[0] == i; Some(TypeOf(r, ps[i - 1]))
      case Contains(r, i) => assert PredValues(p)[0] == i; Some(Contains(r, ps[i - 1]))
  }

  /** search condition ::= conjunction { OR conjunction } */
  function ReadAlts(ts: seq<Token>, ps: seq<Param>): (r: Read<seq<Conj>>)
    ensures r.Got? ==> |r.rest| < |ts|
    decreases |ts|, 3
  {
    match ReadConj(ts, ps)
    case Fail => Fail
    case Got(c, rest) =>
      if rest != [] && rest[0] == OrTok then
        match ReadAlts(rest[1..], ps)
        case Fail => Fail
        case Got(more, rest') => Got([Conj(c)] + more, rest')
      else Got([Conj(c)], rest)
  }

  /** conjunction ::= factor { AND factor } */
  function ReadConj(ts: seq<Token>, ps: seq<Param>): (r: Read<seq<Factor>>)
    ensures r.Got? ==> |r.rest| < |ts|
    decreases |ts|, 2
  {
    match ReadFactor(ts, ps)
    case Fail => Fail
    case Got(f, rest) =>
      if rest != [] && rest[0] == AndTok then
        match ReadConj(rest[1..], ps)
        case Fail => Fail
        case Got(more, rest') => Got([f] + more, rest')
      else Got([f], rest)
  }

  /** factor ::= [ NOT ] primary */
  function ReadFactor(ts: seq<Token>, ps: seq<Param>): (r: Read<Factor>)
    ensures r.Got? ==> |r.rest| < |ts|
    decreases |ts|, 1
  {
    var negated := ts != [] && ts[0] == NotTok;
    match ReadPrimary(if negated then ts[1..] else ts, ps)
    case Fail => Fail
    case Got(p, rest) => Got(Factor(negated, p), rest)
  }

  /** primary ::= predicate | ( search condition ) | EXISTS ( ... WHERE conjunction ) */
  function ReadPrimary(ts: seq<Token>, ps: seq<Param>): (r: Read<Primary>)
    ensures r.Got? ==> |r.rest| < |ts|
    decreases |ts|, 0
  {
    if ts == [] then Fail
    else
      match ts[0]
      case PredTok(p) =>
        (match Resolve(p, ps)
         case None => Fail
         case Some(t) => Got(Test(t), ts[1..]))
      case Open =>
        (match ReadAlts(ts[1..], ps)
         case Fail => Fail
         case Got(alts, rest) =>
           if rest != [] && rest[0] == Close then Got(Paren(alts), rest[1..]) else Fail)
      case ExistsWhere(r) =>
        (match ReadConj(ts[1..], ps)
         case Fail => Fail
         case Got(c, rest) =>
           if rest != [] && rest[0] == Close then Got(ExistsElem(r, Conj(c)), rest[1..]) else Fail)
      case _ => Fail
  }

  /** The whole text as one search condition. */
  function ReadWhere(ts: seq<Token>, ps: seq<Param>): Option<seq<Conj>> {
    match ReadAlts(ts, ps)
    case Fail => None
    case Got(alts, rest) => if rest == [] then Some(alts) else None
  }

  // ---------- trees that have a text ----------

  /** No conjunction in the tree is empty; an empty one prints as nothing, leaving `()`. */
  predicate Solid(fs: seq<Factor>)
    decreases fs, 1
  {
    fs != [] && SolidFactors(fs)
  }

  predicate SolidFactors(fs: seq<Factor>)
    decreases fs, 0
  {
    if fs == [] then true else SolidFactor(fs[0]) && SolidFactors(fs[1..])
  }

  predicate SolidFactor(f: Factor)
    decreases f
  {
    SolidPrimary(f.prim)
  }

  predicate SolidPrimary(p: Primary)
    decreases p
  {
    match p
    case Test(_) => true
    case Paren(alts) => alts != [] && SolidAlts(alts)
    case ExistsElem(_, body) => Solid(body.factors)
  }

  predicate SolidAlts(alts: seq<Conj>)
    decreases alts
  {
    if alts == [] then true else Solid(alts[0].factors) && SolidAlts(alts[1..])
  }

  /** The bound values from position `n` on start with `vs`. */
  predicate BoundAt(ps: seq<Param>, n: nat, vs: seq<Param>) {
    n + |vs| <= |ps| && ps[n..n + |vs|] == vs
  }

  lemma BoundSplit(ps: seq<Param>, n: nat, a: seq<Param>, b: seq<Param>)
    requires BoundAt(ps, n, a + b)
    ensures BoundAt(ps, n, a) && BoundAt(ps, n + |a|, b)
  {
    var s := ps[n..n + |a + b|];
    assert ps[n..n + |a|] == s[..|a|] == a;
    assert ps[n + |a|..n + |a| + |b|] == s[|a|..] == b;
  }

  // ---------- reading undoes printing ----------

  lemma ResolveNumber(p: Pred<Param>, ps: seq<Param>, n: nat)
    requires BoundAt(ps, n, PredValues(p))
    ensures Resolve(Number(p, n), ps) == Some(p)
  {
    var vs := PredValues(p);
    var window := ps[n..n + |vs|];
    forall k | 0 <= k < |vs| ensures ps[n + k] == vs[k] { assert window[k] == vs[k]; }
    var ks := PredValues(Number(p, n));
    assert |ks| == |vs| && forall k | 0 <= k < |ks| :: ks[k] == n + k + 1;
    if |vs| >= 1 { assert ps[n + 0] == vs[0]; }
    if |vs| >= 2 { assert ps[n + 1] == vs[1]; }
  }

  predicate NextIsNot(rest: seq<Token>, t: Token) {
    rest == [] || rest[0] != t
  }

  lemma {:induction false} ReadPrintedPrimary(p: Primary, n: nat, ps: seq<Param>, rest: seq<Token>)
    requires SolidPrimary(p) && BoundAt(ps, n, PrimaryValues(p))
    ensures ReadPrimary(PrintPrimary(p, n) + rest, ps) == Got(p, rest)
    decreases p
  {
    var ts := PrintPrimary(p, n) + rest;
    match p {
      case Test(t) =>
        ResolveNumber(t, ps, n);
        assert ts[1..] == rest;
      case Paren(alts) =>
        assert ts[1..] == PrintAlts(alts, n) + ([Close] + rest);
        ReadPrintedAlts(alts, n, ps, [Close] + rest);
      case ExistsElem(r, body) =>
        assert ts[1..] == Print(body.factors, n) + ([Close] + rest);
        ReadPrinted(body.factors, n, ps, [Close] + rest);
    }
  }

  lemma {:induction false} ReadPrintedFactor(f: Factor, n: nat, ps: seq<Param>, rest: seq<Token>)
    requires SolidFactor(f) && BoundAt(ps, n, FactorValues(f))
    ensures ReadFactor(PrintFactor(f, n) + rest, ps) == Got(f, rest)
    decreases f
  {
    var ts := PrintFactor(f, n) + rest;
    ReadPrintedPrimary(f.prim, n, ps, rest);
    if f.negated {
      assert ts[1..] == PrintPrimary(f.prim, n) + rest;
    } else {
      assert ts == PrintPrimary(f.prim, n) + rest;
    }
  }

  lemma {:induction false} ReadPrinted(fs: seq<Factor>, n: nat, ps: seq<Param>, rest: seq<Token>)
    requires Solid(fs) && BoundAt(ps, n, Values(fs)) && NextIsNot(rest, AndTok)
    ensures ReadConj(Print(fs, n) + rest, ps) == Got(fs, rest)
    decreases fs
  {
    BoundSplit(ps, n, FactorValues(fs[0]), Values(fs[1..]));
    if |fs| == 1 {
      ReadPrintedFactor(fs[0], n, ps, rest);
      PartReads(fs, n, ps, rest);
    } else {
      var k := |FactorValues(fs[0])|;
      var tail := Print(fs[1..], n + k) + rest;
      ReadPrintedFactor(fs[0], n, ps, [AndTok] + tail);
      ReadPrinted(fs[1..], n + k, ps, rest);
      PartsRead(fs, n, k, ps, tail, rest);
    }
  }

  lemma PartReads(fs: seq<Factor>, n: nat, ps: seq<Param>, rest: seq<Token>)
    requires |fs| == 1 && ReadFactor(PrintFactor(fs[0], n) + rest, ps) == Got(fs[0], rest) && NextIsNot(rest, AndTok)
    ensures ReadConj(Print(fs, n) + rest, ps) == Got(fs, rest)
  {
    assert [fs[0]] == fs;
  }

  /** A conjunction is read if its first factor and the others are. */
  lemma PartsRead(fs: seq<Factor>, n: nat, k: nat, ps: seq<Param>, tail: seq<Token>, rest: seq<Token>)
    requires |fs| > 1 && k == |FactorValues(fs[0])| && tail == Print(fs[1..], n + k) + rest
    requires ReadFactor(PrintFactor(fs[0], n) + ([AndTok] + tail), ps) == Got(fs[0], [AndTok] + tail)
    ensures ReadConj(tail, ps) == Got(fs[1..], rest) ==> ReadConj(Print(fs, n) + rest, ps) == Got(fs, rest)
    ensures ReadConj(tail, ps) == Fail ==> ReadConj(Print(fs, n) + rest, ps) == Fail
  {
    PrintMore(fs, n, rest);
    ReadConjMore(Print(fs, n) + rest, fs, tail, rest, ps);
  }

  lemma PrintMore(fs: seq<Factor>, n: nat, rest: seq<Token>)
    requires |fs| > 1
    ensures Print(fs, n) + rest == PrintFactor(fs[0], n) + ([AndTok] + (Print(fs[1..], n + |FactorValues(fs[0])|) + rest))
  {
  }

  lemma ReadConjMore(ts: seq<Token>, fs: seq<Factor>, tail: seq<Token>, rest: seq<Token>, ps: seq<Param>)
    requires fs != [] && ReadFactor(ts, ps) == Got(fs[0], [AndTok] + tail)
    ensures ReadConj(tail, ps) == Got(fs[1..], rest) ==> ReadConj(ts, ps) == Got(fs, rest)
    ensures ReadConj(tail, ps) == Fail ==> ReadConj(ts, ps) == Fail
  {
    assert ([AndTok] + tail)[1..] == tail;
    assert [fs[0]] + fs[1..] == fs;
  }

  lemma {:induction false} ReadPrintedAlts(alts: seq<Conj>, n: nat, ps: seq<Param>, rest: seq<Token>)
    requires alts != [] && SolidAlts(alts) && BoundAt(ps, n, AltValues(alts))
    requires NextIsNot(rest, AndTok) && NextIsNot(rest, OrTok)
    ensures ReadAlts(PrintAlts(alts, n) + rest, ps) == Got(alts, rest)
    decreases alts
  {
    BoundSplit(ps, n, Values(alts[0].factors), AltValues(alts[1..]));
    if |alts| == 1 {
      ReadPrinted(alts[0].factors, n, ps, rest);
      ReadAltsOne(PrintAlts(alts, n) + rest, alts, rest, ps);
    } else {
      var k := |Values(alts[0].factors)|;
      var tail := PrintAlts(alts[1..], n + k) + rest;
      ReadPrinted(alts[0].factors, n, ps, [OrTok] + tail);
      ReadPrintedAlts(alts[1..], n + k, ps, rest);
      AltPartsRead(alts, n, k, ps, tail, rest);
    }
  }

  lemma AltPartsRead(alts: seq<Conj>, n: nat, k: nat, ps: seq<Param>, tail: seq<Token>, rest: seq<Token>)
    requires |alts| > 1 && k == |Values(alts[0].factors)| && tail == PrintAlts(alts[1..], n + k) + rest
    requires ReadConj(Print(alts[0].factors, n) + ([OrTok] + tail), ps) == Got(alts[0].factors, [OrTok] + tail)
    ensures ReadAlts(tail, ps) == Got(alts[1..], rest) ==> ReadAlts(PrintAlts(alts, n) + rest, ps) == Got(alts, rest)
    ensures ReadAlts(tail, ps) == Fail ==> ReadAlts(PrintAlts(alts, n) + rest, ps) == Fail
  {
    PrintAltsMore(alts, n, rest);
    ReadAltsMore(PrintAlts(alts, n) + rest, alts, tail, rest, ps);
  }

  lemma PrintAltsMore(alts: seq<Conj>, n: nat, rest: seq<Token>)
    requires |alts| > 1
    ensures PrintAlts(alts, n) + rest
            == Print(alts[0].factors, n) + ([OrTok] + (PrintAlts(alts[1..], n + |Values(alts[0].factors)|) + rest))
  {
  }

  lemma ReadAltsOne(ts: seq<Token>, alts: seq<Conj>, rest: seq<Token>, ps: seq<Param>)
    requires |alts| == 1 && ReadConj(ts, ps) == Got(alts[0].factors, rest) && NextIsNot(rest, OrTok)
    ensures ReadAlts(ts, ps) == Got(alts, rest)
  {
    assert [alts[0]] == alts;
  }

  lemma ReadAltsMore(ts: seq<Token>, alts: seq<Conj>, tail: seq<Token>, rest: seq<Token>, ps: seq<Param>)
    requires alts != [] && ReadConj(ts, ps) == Got(alts[0].factors, [OrTok] + tail)
    ensures ReadAlts(tail, ps) == Got(alts[1..], rest) ==> ReadAlts(ts, ps) == Got(alts, rest)
    ensures ReadAlts(tail, ps) == Fail ==> ReadAlts(ts, ps) == Fail
  {
    assert ([OrTok] + tail)[1..] == tail;
    assert [alts[0]] + alts[1..] == alts;
  }

  // ---------- a tree with an empty conjunction has no readable text ----------

  /** Where a conjunction can end, so that an empty one leaves no primary to read. */
  predicate AtBoundary(rest: seq<Token>) {
    rest == [] || rest[0] in {Close, OrTok, AndTok}
  }

  lemma NothingToRead(rest: seq<Token>, ps: seq<Param>)
    requires AtBoundary(rest)
    ensures ReadConj(rest, ps) == Fail && ReadAlts(rest, ps) == Fail
  {
    assert ReadPrimary(rest, ps) == Fail;
    assert ReadFactor(rest, ps) == Fail;
  }

  lemma {:induction false} UnreadablePrimary(p: Primary, n: nat, ps: seq<Param>, rest: seq<Token>)
    requires !SolidPrimary(p) && BoundAt(ps, n, PrimaryValues(p))
    ensures ReadPrimary(PrintPrimary(p, n) + rest, ps) == Fail
    decreases p
  {
    var ts := PrintPrimary(p, n) + rest;
    match p {
      case Paren(alts) =>
        assert ts[1..] == PrintAlts(alts, n) + ([Close] + rest);
        UnreadableAlts(alts, n, ps, [Close] + rest);
      case ExistsElem(r, body) =>
        assert ts[1..] == Print(body.factors, n) + ([Close] + rest);
        Unreadable(body.factors, n, ps, [Close] + rest);
    }
  }

  lemma {:induction false} UnreadableFactor(f: Factor, n: nat, ps: seq<Param>, rest: seq<Token>)
    requires !SolidFactor(f) && BoundAt(ps, n, FactorValues(f))
    ensures ReadFactor(PrintFactor(f, n) + rest, ps) == Fail
    decreases f
  {
    var ts := PrintFactor(f, n) + rest;
    UnreadablePrimary(f.prim, n, ps, rest);
    if f.negated {
      assert ts[1..] == PrintPrimary(f.prim, n) + rest;
    } else {
      assert ts == PrintPrimary(f.prim, n) + rest;
    }
  }

  lemma {:induction false} Unreadable(fs: seq<Factor>, n: nat, ps: seq<Param>, rest: seq<Token>)
    requires !Solid(fs) && BoundAt(ps, n, Values(fs)) && AtBoundary(rest)
    ensures ReadConj(Print(fs, n) + rest, ps) == Fail
    decreases fs
  {
    if fs == [] {
      assert Print(fs, n) + rest == rest;
      NothingToRead(rest, ps);
    } else {
      assert fs[1..] == [] ==> SolidFactors(fs[1..]);
      BoundSplit(ps, n, FactorValues(fs[0]), Values(fs[1..]));
      if |fs| == 1 {
        UnreadableFactor(fs[0], n, ps, rest);
      } else {
        UnreadableMore(fs, n, ps, rest);
      }
    }
  }

  lemma {:induction false} UnreadableMore(fs: seq<Factor>, n: nat, ps: seq<Param>, rest: seq<Token>)
    requires |fs| > 1 && !Solid(fs) && AtBoundary(rest)
    requires BoundAt(ps, n, FactorValues(fs[0])) && BoundAt(ps, n + |FactorValues(fs[0])|, Values(fs[1..]))
    ensures ReadConj(Print(fs, n) + rest, ps) == Fail
    decreases fs, 0
  {
    var k := |FactorValues(fs[0])|;
    var tail := Print(fs[1..], n + k) + rest;
    if SolidFactor(fs[0]) {
      ReadPrintedFactor(fs[0], n, ps, [AndTok] + tail);
      Unreadable(fs[1..], n + k, ps, rest);
      PartsRead(fs, n, k, ps, tail, rest);
    } else {
      PrintMore(fs, n, rest);
      UnreadableFactor(fs[0], n, ps, [AndTok] + tail);
    }
  }

  lemma {:induction false} UnreadableAlts(alts: seq<Conj>, n: nat, ps: seq<Param>, rest: seq<Token>)
    requires !(alts != [] && SolidAlts(alts)) && BoundAt(ps, n, AltValues(alts)) && AtBoundary(rest)
    ensures ReadAlts(PrintAlts(alts, n) + rest, ps) == Fail
    decreases alts
  {
    if alts == [] {
      assert PrintAlts(alts, n) + rest == rest;
      NothingToRead(rest, ps);
    } else {
      BoundSplit(ps, n, Values(alts[0].factors), AltValues(alts[1..]));
      if |alts| == 1 {
        assert SolidAlts(alts[1..]);
        Unreadable(alts[0].factors, n, ps, rest);
      } else {
        UnreadableAltsMore(alts, n, ps, rest);
      }
    }
  }

  lemma {:induction false} UnreadableAltsMore(alts: seq<Conj>, n: nat, ps: seq<Param>, rest: seq<Token>)
    requires |alts| > 1 && !SolidAlts(alts) && AtBoundary(rest)
    requires BoundAt(ps, n, Values(alts[0].factors)) && BoundAt(ps, n + |Values(alts[0].factors)|, AltValues(alts[1..]))
    ensures ReadAlts(PrintAlts(alts, n) + rest, ps) == Fail
    decreases alts, 0
  {
    var fs, k := alts[0].factors, |Values(alts[0].factors)|;
    var tail := PrintAlts(alts[1..], n + k) + rest;
    if Solid(fs) {
      ReadPrinted(fs, n, ps, [OrTok] + tail);
      UnreadableAlts(alts[1..], n + k, ps, rest);
      AltPartsRead(alts, n, k, ps, tail, rest);
    } else {
      PrintAltsMore(alts, n, rest);
      Unreadable(fs, n, ps, [OrTok] + tail);
    }
  }

  /** The text of a conjunction reads back as exactly that conjunction, with every placeholder
      resolved to its value, when and only when no part of it is empty. */
  lemma ReadWherePrint(fs: seq<Factor>, ps: seq<Param>)
    requires BoundAt(ps, 0, Values(fs))
    ensures ReadWhere(Print(fs, 0), ps) == if Solid(fs) then Some([Conj(fs)]) else None
  {
    assert Print(fs, 0) + [] == Print(fs, 0);
    if Solid(fs) {
      ReadPrinted(fs, 0, ps, []);
    } else {
      Unreadable(fs, 0, ps, []);
    }
  }

  // ---------- composition ----------

  lemma {:induction false} ValuesConcat(a: seq<Factor>, b: seq<Factor>)
    ensures Values(a + b) == Values(a) + Values(b)
  {
    if a == [] {
      assert a + b == b;
    } else {
      assert (a + b)[1..] == a[1..] + b;
      ValuesConcat(a[1..], b);
    }
  }

  /** Joining two non-empty texts with AND is the text of the joined conjunction. */
  lemma {:induction false} PrintConcat(a: seq<Factor>, b: seq<Factor>, n: nat)
    requires a != [] && b != []
    ensures Print(a + b, n) == Print(a, n) + [AndTok] + Print(b, n + |Values(a)|)
    decreases a
  {
    var k := |FactorValues(a[0])|;
    assert (a + b)[1..] == a[1..] + b;
    if |a| == 1 {
      assert a[1..] + b == b;
      assert |Values(a)| == k;
    } else {
      PrintConcat(a[1..], b, n + k);
      assert |Values(a)| == k + |Values(a[1..])|;
    }
  }

  lemma {:induction false} AltValuesConcat(a: seq<Conj>, b: seq<Conj>)
    ensures AltValues(a + b) == AltValues(a) + AltValues(b)
  {
    if a == [] {
      assert a + b == b;
    } else {
      assert (a + b)[1..] == a[1..] + b;
      AltValuesConcat(a[1..], b);
    }
  }

  lemma {:induction false} PrintAltsSnoc(a: seq<Conj>, c: Conj, n: nat)
    ensures PrintAlts(a + [c], n) ==
            if a == [] then Print(c.factors, n)
            else PrintAlts(a, n) + [OrTok] + Print(c.factors, n + |AltValues(a)|)
    decreases a
  {
    if a == [] {
      assert a + [c] == [c];
    } else {
      PrintAltsSnoc(a[1..], c, n + |Values(a[0].factors)|);
      PrintAltsCons(a[0], a[1..] + [c], n);
      assert a + [c] == [a[0]] + (a[1..] + [c]);
      if |a| > 1 { PrintAltsTwo(a, n); }
      AltValuesFirst(a);
    }
  }

  lemma AltValuesFirst(a: seq<Conj>)
    requires a != []
    ensures |AltValues(a)| == |Values(a[0].factors)| + |AltValues(a[1..])|
  {
  }

  lemma PrintAltsTwo(a: seq<Conj>, n: nat)
    requires |a| > 1
    ensures PrintAlts(a, n) == Print(a[0].factors, n) + [OrTok] + PrintAlts(a[1..], n + |Values(a[0].factors)|)
  {
  }

  lemma PrintAltsCons(c: Conj, alts: seq<Conj>, n: nat)
    requires alts != []
    ensures PrintAlts([c] + alts, n) == Print(c.factors, n) + [OrTok] + PrintAlts(alts, n + |Values(c.factors)|)
    ensures AltValues([c] + alts) == Values(c.factors) + AltValues(alts)
  {
    assert ([c] + alts)[1..] == alts;
  }

  // ---------- placeholders ----------

  function Placeholders(ts: seq<Token>): seq<nat> {
    if ts == [] then []
    else (if ts[0].PredTok? then PredValues(ts[0].p) else []) + Placeholders(ts[1..])
  }

  function Upto(n: nat, k: nat): seq<nat> {
    seq(k, i requires 0 <= i < k => n + i + 1)
  }

  lemma {:induction false} PlaceholdersConcat(a: seq<Token>, b: seq<Token>)
    ensures Placeholders(a + b) == Placeholders(a) + Placeholders(b)
  {
    if a == [] {
      assert a + b == b;
    } else {
      assert (a + b)[1..] == a[1..] + b;
      PlaceholdersConcat(a[1..], b);
    }
  }

  lemma UptoConcat(n: nat, j: nat, k: nat)
    ensures Upto(n, j) + Upto(n + j, k) == Upto(n, j + k)
  {
  }

  /** A separator between two texts holds no placeholder. */
  lemma PlaceholdersAround(a: seq<Token>, sep: Token, b: seq<Token>)
    requires sep == AndTok || sep == OrTok
    ensures Placeholders(a + [sep] + b) == Placeholders(a) + Placeholders(b)
  {
    PlaceholdersConcat(a + [sep], b);
    PlaceholdersConcat(a, [sep]);
  }

  /** Read from left to right the placeholders of a printed tree are the next numbers, each once. */
  lemma {:induction false} PlaceholdersOfPrint(fs: seq<Factor>, n: nat)
    ensures Placeholders(Print(fs, n)) == Upto(n, |Values(fs)|)
    decreases fs
  {
    if fs != [] {
      var k := |FactorValues(fs[0])|;
      PlaceholdersOfFactor(fs[0], n);
      if |fs| == 1 {
        assert Values(fs[1..]) == [];
      } else {
        PlaceholdersOfPrint(fs[1..], n + k);
        PlaceholdersAround(PrintFactor(fs[0], n), AndTok, Print(fs[1..], n + k));
        UptoConcat(n, k, |Values(fs[1..])|);
      }
    }
  }

  lemma {:induction false} PlaceholdersOfFactor(f: Factor, n: nat)
    ensures Placeholders(PrintFactor(f, n)) == Upto(n, |FactorValues(f)|)
    decreases f
  {
    PlaceholdersConcat(if f.negated then [NotTok] else [], PrintPrimary(f.prim, n));
    PlaceholdersOfPrimary(f.prim, n);
  }

  lemma {:induction false} PlaceholdersOfPrimary(p: Primary, n: nat)
    ensures Placeholders(PrintPrimary(p, n)) == Upto(n, |PrimaryValues(p)|)
    decreases p
  {
    match p {
      case Test(t) => assert PredValues(Number(t, n)) == Upto(n, |PredValues(t)|);
      case Paren(alts) =>
        PlaceholdersOfAlts(alts, n);
        PlaceholdersConcat([Open] + PrintAlts(alts, n), [Close]);
        PlaceholdersConcat([Open], PrintAlts(alts, n));
      case ExistsElem(r, body) =>
        PlaceholdersOfPrint(body.factors, n);
        PlaceholdersConcat([ExistsWhere(r)] + Print(body.factors, n), [Close]);
        PlaceholdersConcat([ExistsWhere(r)], Print(body.factors, n));
    }
  }

  lemma {:induction false} PlaceholdersOfAlts(alts: seq<Conj>, n: nat)
    ensures Placeholders(PrintAlts(alts, n)) == Upto(n, |AltValues(alts)|)
    decreases alts
  {
    if alts != [] {
      var k := |Values(alts[0].factors)|;
      PlaceholdersOfPrint(alts[0].factors, n);
      if |alts| == 1 {
        assert AltValues(alts[1..]) == [];
      } else {
        PlaceholdersOfAlts(alts[1..], n + k);
        PlaceholdersAround(Print(alts[0].factors, n), OrTok, PrintAlts(alts[1..], n + k));
        UptoConcat(n, k, |AltValues(alts[1..])|);
      }
    }
  }
}
