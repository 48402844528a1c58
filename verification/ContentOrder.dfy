/** `cm` in the source against `cm` in section 8.3.4 of ISO 32000-1: when the two orders agree. */
module ContentOrder {
  import opened Prelude
  import opened Rects
  import opened ContentStream

  /** The order of section 8.3.4: the new matrix goes in front of the current one. The source puts it behind. */
  function InFront(): Compose { (current: Affine, delta: Affine) => delta.Multiply(current) }

  function Reversed(ms: seq<Affine>): seq<Affine> {
    if ms == [] then [] else [ms[|ms| - 1]] + Reversed(ms[..|ms| - 1])
  }

  lemma IdentityIsNeutral(m: Affine)
    ensures IDENTITY.Multiply(m) == m == m.Multiply(IDENTITY)
  {
  }

  lemma {:induction false} ProductPrepend(m: Affine, ms: seq<Affine>)
    ensures Product([m] + ms) == m.Multiply(Product(ms))
  {
    if ms == [] {
      assert [m] + ms == [m] && [m][..0] == [];
      IdentityIsNeutral(m);
    } else {
      var front, last := ms[..|ms| - 1], ms[|ms| - 1];
      ProductPrepend(m, front);
      assert ([m] + ms)[..|ms|] == [m] + front;
      Associative(m, Product(front), last);
    }
  }

  /** Putting each matrix in front multiplies them in reverse. */
  lemma {:induction false} FrontIsReversed(ms: seq<Affine>)
    ensures Fold(ms, InFront()) == Product(Reversed(ms))
  {
    if ms != [] {
      FrontIsReversed(ms[..|ms| - 1]);
      ProductPrepend(ms[|ms| - 1], Reversed(ms[..|ms| - 1]));
    }
  }

  // ---- the two machines ----

  /**
   * The current matrix is the product of the matrices in force: in stream order in the source, in
   * reverse in the section.
   */
  lemma CurrentMatrices(tokens: seq<Token>, n: nat, page: Page)
    requires n <= |tokens| && Run(tokens, n, page, Behind()).Ok? && Run(tokens, n, page, InFront()).Ok?
    ensures var s, t := Run(tokens, n, page, Behind()).value, Run(tokens, n, page, InFront()).value;
            var ms := InForce(tokens, n, 0);
            s.stack != [] && StackTop(s.stack) == Product(ms) && StackTop(t.stack) == Product(Reversed(ms))
  {
    StackHoldsFolds(tokens, n, page, Behind(), 0);
    StackHoldsFolds(tokens, n, page, InFront(), 0);
    FrontIsReversed(InForce(tokens, n, 0));
  }

  /** So the two current matrices agree exactly when the two products do. */
  lemma TopsAgreeExactly(tokens: seq<Token>, n: nat, page: Page)
    requires n <= |tokens| && Run(tokens, n, page, Behind()).Ok? && Run(tokens, n, page, InFront()).Ok?
    ensures StackTop(Run(tokens, n, page, Behind()).value.stack) ==
            StackTop(Run(tokens, n, page, InFront()).value.stack) <==>
            Product(InForce(tokens, n, 0)) == Product(Reversed(InForce(tokens, n, 0)))
  {
    CurrentMatrices(tokens, n, page);
  }

  /** Both orders place the image of token `i` alike. */
  predicate SamePlace(tokens: seq<Token>, i: nat, page: Page)
    requires i < |tokens|
  {
    var ms := InForce(tokens, i, 0);
    PaintedAt(tokens, i, Product(ms), page) == PaintedAt(tokens, i, Product(Reversed(ms)), page)
  }

  lemma {:induction false} PaintedAgree(tokens: seq<Token>, n: nat, page: Page)
    requires n <= |tokens|
    ensures |Painted(tokens, n, page, Behind())| == |Painted(tokens, n, page, InFront())|
    ensures Painted(tokens, n, page, Behind()) == Painted(tokens, n, page, InFront()) <==>
            forall i | 0 <= i < n :: SamePlace(tokens, i, page)
  {
    if n > 0 {
      PaintedAgree(tokens, n - 1, page);
      var ms := InForce(tokens, n - 1, 0);
      FrontIsReversed(ms);
      TailsAgree(Painted(tokens, n - 1, page, Behind()), PaintedAt(tokens, n - 1, Product(ms), page),
                 Painted(tokens, n - 1, page, InFront()), PaintedAt(tokens, n - 1, Product(Reversed(ms)), page));
      assert (forall i | 0 <= i < n :: SamePlace(tokens, i, page)) <==>
             (forall i | 0 <= i < n - 1 :: SamePlace(tokens, i, page)) && SamePlace(tokens, n - 1, page);
    }
  }

  lemma TailsAgree<T>(a: seq<T>, b: seq<T>, c: seq<T>, d: seq<T>)
    requires |a| == |c|
    ensures a + b == c + d <==> a == c && b == d
  {
    if a + b == c + d {
      assert a == (a + b)[..|a|] && c == (c + d)[..|c|] && b == (a + b)[|a|..] && d == (c + d)[|c|..];
    }
  }

  /**
   * The source finds the figures of section 8.3.4 exactly when every painted image lands in the
   * same place both ways.
   */
  lemma FiguresAgreeExactly(tokens: seq<Token>, n: nat, page: Page)
    requires n <= |tokens| && Run(tokens, n, page, Behind()).Ok? && Run(tokens, n, page, InFront()).Ok?
    ensures Run(tokens, n, page, Behind()).value.figures == Run(tokens, n, page, InFront()).value.figures <==>
            forall i | 0 <= i < n :: SamePlace(tokens, i, page)
  {
    FiguresAreInForce(tokens, n, page, Behind());
    FiguresAreInForce(tokens, n, page, InFront());
    PaintedAgree(tokens, n, page);
  }

  /** Then the two machines also refuse the same streams, for the same reason. */
  lemma {:induction false} ResultsAgree(tokens: seq<Token>, n: nat, page: Page)
    requires n <= |tokens| && forall i | 0 <= i < n :: SamePlace(tokens, i, page)
    ensures match Run(tokens, n, page, Behind())
            case Err(error) => Run(tokens, n, page, InFront()) == Err(error)
            case Ok(s) => Run(tokens, n, page, InFront()).Ok? && SameShape(s, Run(tokens, n, page, InFront()).value)
  {
    if n > 0 {
      ResultsAgree(tokens, n - 1, page);
      if Run(tokens, n - 1, page, Behind()).Ok? {
        var s, t := Run(tokens, n - 1, page, Behind()).value, Run(tokens, n - 1, page, InFront()).value;
        CurrentMatrices(tokens, n - 1, page);
        assert SamePlace(tokens, n - 1, page);
        StepsAgree(tokens, n - 1, s, t, page);
      }
    }
  }

  predicate SameShape(s: State, t: State) { |s.stack| == |t.stack| && s.figures == t.figures }

  lemma StepsAgree(tokens: seq<Token>, i: nat, s: State, t: State, page: Page)
    requires i < |tokens| && s.stack != [] && SameShape(s, t)
    requires PaintedAt(tokens, i, StackTop(s.stack), page) == PaintedAt(tokens, i, StackTop(t.stack), page)
    ensures match Step(tokens, i, s, page, Behind())
            case Err(error) => Step(tokens, i, t, page, InFront()) == Err(error)
            case Ok(s') =>
              && Step(tokens, i, t, page, InFront()).Ok?
              && SameShape(s', Step(tokens, i, t, page, InFront()).value)
  {
    assert tokens[i].Paint? && i >= 1 && tokens[i - 1].Name? && tokens[i - 1].name in page.images ==>
           PaintedAt(tokens, i, StackTop(s.stack), page)[0].box == PaintedAt(tokens, i, StackTop(t.stack), page)[0].box;
  }

  // ---- matrices that commute ----

  predicate Commute(m: Affine, n: Affine) { m.Multiply(n) == n.Multiply(m) }

  lemma ProductTwo(m: Affine, n: Affine)
    ensures Product([m, n]) == m.Multiply(n)
  {
    assert [m, n][..1] == [m] && [m][..0] == [];
    assert Product([m]) == Product([]).Multiply(m);
    IdentityIsNeutral(m);
  }

  /** Two matrices in one scope give the same both ways exactly when they commute. */
  lemma TwoAgreeExactly(m: Affine, n: Affine)
    ensures Product([m, n]) == Product(Reversed([m, n])) <==> Commute(m, n)
  {
    assert [m, n][..1] == [m] && [m][..0] == [];
    assert Reversed([m]) == [m] && Reversed([m, n]) == [n] + [m];
    assert [n] + [m] == [n, m];
    ProductTwo(m, n);
    ProductTwo(n, m);
  }

  lemma BothCommute(n: Affine, o: Affine, m: Affine)
    requires Commute(n, m) && Commute(o, m)
    ensures Commute(n.Multiply(o), m)
  {
    Associative(n, o, m);
    Associative(n, m, o);
    Associative(m, n, o);
  }

  lemma {:induction false} CommutesWithProduct(ms: seq<Affine>, m: Affine)
    requires forall n | n in ms :: Commute(n, m)
    ensures Commute(Product(ms), m)
  {
    if ms == [] {
      IdentityIsNeutral(m);
    } else {
      CommutesWithProduct(ms[..|ms| - 1], m);
      BothCommute(Product(ms[..|ms| - 1]), ms[|ms| - 1], m);
    }
  }

  /** Matrices that commute pairwise, like moves only or scalings only, give the same both ways. */
  lemma {:induction false} CommutingAgree(ms: seq<Affine>)
    requires forall m, n | m in ms && n in ms :: Commute(m, n)
    ensures Product(ms) == Product(Reversed(ms))
  {
    if ms != [] {
      var front, last := ms[..|ms| - 1], ms[|ms| - 1];
      CommutingAgree(front);
      CommutesWithProduct(front, last);
      ProductPrepend(last, Reversed(front));
    }
  }

  // ---- a stream with two matrices ----

  function Operands(m: Affine): seq<Token> {
    [Operand(m.a), Operand(m.b), Operand(m.c), Operand(m.d), Operand(m.e), Operand(m.f)]
  }

  /** Operands, `cm`, operands, `cm`, a name and `Do`. */
  function TwoMatrices(m: Affine, n: Affine, name: string): seq<Token> {
    Operands(m) + [Matrix] + Operands(n) + [Matrix, Name(name), Paint]
  }

  ghost predicate Layout(tokens: seq<Token>, m: Affine, n: Affine, name: string) {
    && |tokens| == 16 && (forall j | 0 <= j < 6 || 7 <= j < 13 :: tokens[j].Operand?)
    && tokens[6].Matrix? && Delta(tokens, 6) == m && tokens[13].Matrix? && Delta(tokens, 13) == n
    && tokens[14] == Name(name) && tokens[15].Paint?
  }

  lemma TwoMatricesLayout(m: Affine, n: Affine, name: string)
    ensures Layout(TwoMatrices(m, n, name), m, n, name)
  {
  }

  lemma {:induction false} Skipped(tokens: seq<Token>, i: nat, k: nat, page: Page, compose: Compose)
    requires i <= k <= |tokens| && forall j | i <= j < k :: tokens[j].Operand? || tokens[j].Name?
    ensures Run(tokens, k, page, compose) == Run(tokens, i, page, compose)
  {
    if i < k { Skipped(tokens, i, k - 1, page, compose); }
  }

  /** One `cm` in the outermost scope. */
  lemma OneMatrix(tokens: seq<Token>, i: nat, page: Page, compose: Compose, top: Affine)
    requires i < |tokens| && tokens[i].Matrix? && HasOperands(tokens, i)
    requires Run(tokens, i, page, compose) == Ok(State([top], []))
    ensures Run(tokens, i + 1, page, compose) == Ok(State([compose(top, Delta(tokens, i))], []))
  {
    assert [top][..0] == [];
    assert [] + [compose(top, Delta(tokens, i))] == [compose(top, Delta(tokens, i))];
  }

  /** One name and `Do` under `top`, with nothing painted before: images only, and no degenerate crops. */
  function PaintOne(top: Affine, name: string, page: Page): Result<State, StreamError> {
    if name !in page.images then Ok(State([top], []))
    else if Degenerate(page.place(top)) then Err(DegenerateCrop)
    else Ok(State([top], [Figure(name, page.place(top))]))
  }

  lemma OnePaint(tokens: seq<Token>, i: nat, page: Page, compose: Compose, top: Affine, name: string)
    requires 0 < i < |tokens| && tokens[i].Paint? && tokens[i - 1] == Name(name)
    requires Run(tokens, i, page, compose) == Ok(State([top], []))
    ensures Run(tokens, i + 1, page, compose) == PaintOne(top, name, page)
  {
    assert [] + [Figure(name, page.place(top))] == [Figure(name, page.place(top))];
  }

  lemma LayoutRun(tokens: seq<Token>, m: Affine, n: Affine, name: string, page: Page, compose: Compose)
    requires Layout(tokens, m, n, name)
    ensures Run(tokens, 16, page, compose) == PaintOne(compose(compose(IDENTITY, m), n), name, page)
  {
    Skipped(tokens, 0, 6, page, compose);
    OneMatrix(tokens, 6, page, compose, IDENTITY);
    Skipped(tokens, 7, 13, page, compose);
    OneMatrix(tokens, 13, page, compose, compose(IDENTITY, m));
    Skipped(tokens, 14, 15, page, compose);
    OnePaint(tokens, 15, page, compose, compose(compose(IDENTITY, m), n), name);
  }

  /** What both orders make of such a stream: the product one way round, and the other. */
  lemma TwoMatricesRun(m: Affine, n: Affine, name: string, page: Page)
    ensures var tokens := TwoMatrices(m, n, name);
            && Run(tokens, |tokens|, page, Behind()) == PaintOne(m.Multiply(n), name, page)
            && Run(tokens, |tokens|, page, InFront()) == PaintOne(n.Multiply(m), name, page)
  {
    TwoMatricesLayout(m, n, name);
    IdentityIsNeutral(m);
    LayoutRun(TwoMatrices(m, n, name), m, n, name, page, Behind());
    LayoutRun(TwoMatrices(m, n, name), m, n, name, page, InFront());
  }

  /** A move by one followed by a doubling: the source puts the image at 2, the section at 1, on a page of width 10. */
  lemma OrderMatters() returns (tokens: seq<Token>, page: Page)
    ensures page == PageOf(10.0, 10.0, {"image"})
    ensures Run(tokens, |tokens|, page, Behind()).Ok? && Run(tokens, |tokens|, page, InFront()).Ok?
    ensures var found := Run(tokens, |tokens|, page, Behind()).value.figures;
            var meant := Run(tokens, |tokens|, page, InFront()).value.figures;
            |found| == |meant| == 1 && found[0].box.x0 == 0.2 && meant[0].box.x0 == 0.1
  {
    page := PageOf(10.0, 10.0, {"image"});
    var move, double := MoveAndDouble();
    tokens := TwoMatrices(move, double, "image");
    TwoMatricesRun(move, double, "image", page);
  }

  lemma MoveAndDouble() returns (move: Affine, double: Affine)
    ensures PageBox(move.Multiply(double), 10.0, 10.0) == Rect(0.2, 0.8, 0.4, 1.0)
    ensures PageBox(double.Multiply(move), 10.0, 10.0) == Rect(0.1, 0.8, 0.3, 1.0)
  {
    var after, before;
    move, double, after, before := Multiplied();
    Doubled(after, 2.0);
    Doubled(before, 1.0);
  }

  lemma Multiplied() returns (move: Affine, double: Affine, after: Affine, before: Affine)
    ensures move.Multiply(double) == after == Affine(2.0, 0.0, 0.0, 2.0, 2.0, 0.0)
    ensures double.Multiply(move) == before == Affine(2.0, 0.0, 0.0, 2.0, 1.0, 0.0)
  {
    move, double := Affine(1.0, 0.0, 0.0, 1.0, 1.0, 0.0), Affine(2.0, 0.0, 0.0, 2.0, 0.0, 0.0);
    MoveThenDouble();
    DoubleThenMove();
    after, before := Affine(2.0, 0.0, 0.0, 2.0, 2.0, 0.0), Affine(2.0, 0.0, 0.0, 2.0, 1.0, 0.0);
  }

  lemma MoveThenDouble()
    ensures Affine(1.0, 0.0, 0.0, 1.0, 1.0, 0.0).Multiply(Affine(2.0, 0.0, 0.0, 2.0, 0.0, 0.0)) ==
            Affine(2.0, 0.0, 0.0, 2.0, 2.0, 0.0)
  {
  }

  lemma DoubleThenMove()
    ensures Affine(2.0, 0.0, 0.0, 2.0, 0.0, 0.0).Multiply(Affine(1.0, 0.0, 0.0, 1.0, 1.0, 0.0)) ==
            Affine(2.0, 0.0, 0.0, 2.0, 1.0, 0.0)
  {
  }

  /** Twice the unit square, moved right by `e`. */
  lemma Doubled(m: Affine, e: real)
    requires m == Affine(2.0, 0.0, 0.0, 2.0, e, 0.0) && 0.0 <= e <= 8.0
    ensures PageBox(m, 10.0, 10.0) == Rect(e / 10.0, 0.8, (e + 2.0) / 10.0, 1.0)
  {
    assert m.Apply(0.0, 0.0) == (e, 0.0) && m.Apply(1.0, 0.0) == (2.0 + e, 0.0);
    assert m.Apply(0.0, 1.0) == (e, 2.0) && m.Apply(1.0, 1.0) == (2.0 + e, 2.0);
    assert CornerBox(m) == Rect(e, 0.0, e + 2.0, 2.0);
  }
}
