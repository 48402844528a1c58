/** Affine matrices and the q / Q / cm / Do machine that places image XObjects on a page. */
module ContentStream {
  import opened Fractions
  import opened Prelude
  import opened Rects

  function Dot(p: real, q: real, x: real, y: real): real { p * x + q * y }

  datatype Affine = Affine(a: real, b: real, c: real, d: real, e: real, f: real) {
    function Multiply(other: Affine): Affine {
      Affine(Dot(a, b, other.a, other.c),
             Dot(a, b, other.b, other.d),
             Dot(c, d, other.a, other.c),
             Dot(c, d, other.b, other.d),
             Dot(e, f, other.a, other.c) + other.e,
             Dot(e, f, other.b, other.d) + other.f)
    }

    function Apply(x: real, y: real): (real, real) {
      (Dot(a, c, x, y) + e, Dot(b, d, x, y) + f)
    }
  }

  const IDENTITY := Affine(1.0, 0.0, 0.0, 1.0, 0.0, 0.0)

  /** The left factor acts first. */
  lemma LeftActsFirst(m: Affine, n: Affine, x: real, y: real)
    ensures m.Multiply(n).Apply(x, y) == n.Apply(m.Apply(x, y).0, m.Apply(x, y).1)
  {
    LeftActsFirstIn(m, n.a, n.c, x, y);
    LeftActsFirstIn(m, n.b, n.d, x, y);
  }

  lemma LeftActsFirstIn(m: Affine, p: real, q: real, x: real, y: real)
    ensures Dot(Dot(m.a, m.b, p, q), Dot(m.c, m.d, p, q), x, y) + Dot(m.e, m.f, p, q) ==
            Dot(m.Apply(x, y).0, m.Apply(x, y).1, p, q) ==
            Dot(p, q, m.Apply(x, y).0, m.Apply(x, y).1)
  {
  }

  lemma Associative(m: Affine, n: Affine, o: Affine)
    ensures m.Multiply(n).Multiply(o) == m.Multiply(n.Multiply(o))
  {
    AssociativeIn(m, n, o.a, o.c);
    AssociativeIn(m, n, o.b, o.d);
  }

  lemma AssociativeIn(m: Affine, n: Affine, x: real, y: real)
    ensures var mn, u, v := m.Multiply(n), Dot(n.a, n.b, x, y), Dot(n.c, n.d, x, y);
            && Dot(mn.a, mn.b, x, y) == Dot(m.a, m.b, u, v)
            && Dot(mn.c, mn.d, x, y) == Dot(m.c, m.d, u, v)
            && Dot(mn.e, mn.f, x, y) == Dot(m.e, m.f, u, v) + Dot(n.e, n.f, x, y)
  {
  }

  /** How a new matrix joins the current one. */
  type Compose = (Affine, Affine) -> Affine

  /** The order of the source: the new matrix goes behind the current one. */
  function Behind(): Compose { (current: Affine, delta: Affine) => current.Multiply(delta) }

  function Fold(ms: seq<Affine>, compose: Compose): Affine {
    if ms == [] then IDENTITY else compose(Fold(ms[..|ms| - 1], compose), ms[|ms| - 1])
  }

  /** The product of the matrices, in order. */
  function Product(ms: seq<Affine>): Affine { Fold(ms, Behind()) }

  /** Where the matrices take a point when they act one after the other. */
  function ActInTurn(ms: seq<Affine>, x: real, y: real): (real, real) {
    if ms == [] then (x, y)
    else
      var p := ActInTurn(ms[..|ms| - 1], x, y);
      ms[|ms| - 1].Apply(p.0, p.1)
  }

  lemma {:induction false} ProductActsInTurn(ms: seq<Affine>, x: real, y: real)
    ensures Product(ms).Apply(x, y) == ActInTurn(ms, x, y)
  {
    if ms != [] {
      ProductActsInTurn(ms[..|ms| - 1], x, y);
      LeftActsFirst(Product(ms[..|ms| - 1]), ms[|ms| - 1], x, y);
    }
  }

  // ---- the unit square ----

  function Min4(p: real, q: real, r: real, s: real): real {
    var u := if p < q then p else q;
    var v := if r < s then r else s;
    if u < v then u else v
  }

  function Max4(p: real, q: real, r: real, s: real): real { -Min4(-p, -q, -r, -s) }

  /** The box around the images of the four corners, before clamping. */
  function CornerBox(m: Affine): Rect {
    var p, q, r, s := m.Apply(0.0, 0.0), m.Apply(1.0, 0.0), m.Apply(0.0, 1.0), m.Apply(1.0, 1.0);
    Rect(Min4(p.0, q.0, r.0, s.0), Min4(p.1, q.1, r.1, s.1), Max4(p.0, q.0, r.0, s.0), Max4(p.1, q.1, r.1, s.1))
  }

  predicate Encloses(box: Rect, x: real, y: real) {
    box.x0 <= x <= box.x1 && box.y0 <= y <= box.y1
  }

  lemma Between(u: real, t: real)
    requires 0.0 <= t <= 1.0
    ensures (if u < 0.0 then u else 0.0) <= u * t <= (if u > 0.0 then u else 0.0)
  {
    if u >= 0.0 {
    } else {
      assert (-u) * t == -(u * t);
    }
  }

  /** One coordinate of an image point against the same coordinate of the four corners. */
  lemma CoordinateRange(u: real, v: real, w: real, x: real, y: real)
    requires 0.0 <= x <= 1.0 && 0.0 <= y <= 1.0
    ensures Min4(w, u + w, v + w, u + v + w) <= Dot(u, v, x, y) + w <= Max4(w, u + w, v + w, u + v + w)
  {
    Between(u, x);
    Between(v, y);
  }

  ghost predicate EnclosesImage(box: Rect, m: Affine) {
    forall x, y | 0.0 <= x <= 1.0 && 0.0 <= y <= 1.0 :: Encloses(box, m.Apply(x, y).0, m.Apply(x, y).1)
  }

  lemma CornersEnclose(m: Affine, x: real, y: real)
    requires 0.0 <= x <= 1.0 && 0.0 <= y <= 1.0
    ensures Encloses(CornerBox(m), m.Apply(x, y).0, m.Apply(x, y).1)
  {
    CoordinateRange(m.a, m.c, m.e, x, y);
    CoordinateRange(m.b, m.d, m.f, x, y);
  }

  /** The corner box encloses the image of every point of the unit square, and no smaller box does. */
  lemma CornerBoxIsTight(m: Affine, box: Rect)
    ensures EnclosesImage(CornerBox(m), m)
    ensures EnclosesImage(box, m) ==>
              box.x0 <= CornerBox(m).x0 && box.y0 <= CornerBox(m).y0 && CornerBox(m).x1 <= box.x1 &&
              CornerBox(m).y1 <= box.y1
  {
    forall x, y | 0.0 <= x <= 1.0 && 0.0 <= y <= 1.0
      ensures Encloses(CornerBox(m), m.Apply(x, y).0, m.Apply(x, y).1)
    {
      CornersEnclose(m, x, y);
    }
    if EnclosesImage(box, m) { CornersInside(m, box); }
  }

  lemma CornersInside(m: Affine, box: Rect)
    requires EnclosesImage(box, m)
    ensures box.x0 <= CornerBox(m).x0 && box.y0 <= CornerBox(m).y0 && CornerBox(m).x1 <= box.x1 &&
            CornerBox(m).y1 <= box.y1
  {
    var p, q, r, s := m.Apply(0.0, 0.0), m.Apply(1.0, 0.0), m.Apply(0.0, 1.0), m.Apply(1.0, 1.0);
    assert Encloses(box, p.0, p.1) && Encloses(box, q.0, q.1) && Encloses(box, r.0, r.1) && Encloses(box, s.0, s.1);
  }

  /** The nearest number from 0 to 1. */
  function Clamp01(x: real): (c: real)
    ensures 0.0 <= c <= 1.0 && (c > x ==> c == 0.0) && (c < x ==> c == 1.0)
  {
    if x < 0.0 then 0.0 else if x > 1.0 then 1.0 else x
  }

  /** `_unit_square_bbox`: normalised to the page with the origin at the top left, and clamped. */
  function PageBox(m: Affine, width: real, height: real): Rect
    requires width > 0.0 && height > 0.0
  {
    var box := CornerBox(m);
    Rect(Clamp01(box.x0 / width), Clamp01((height - box.y1) / height),
         Clamp01(box.x1 / width), Clamp01((height - box.y0) / height))
  }

  // ---- the machine ----

  /** `Operand` is any token that `float()` reads as a number. */
  datatype Token = Save | Restore | Matrix | Paint | Name(name: string) | Operand(value: real) | Other

  datatype StreamError = UnbalancedRestore | MissingOperands | NotNumbers | MissingName | NotAName | DegenerateCrop

  datatype Figure = Figure(name: string, box: Rect)

  /** The image names of a page, and where a matrix puts the unit square on it. */
  datatype Page = Page(images: set<string>, place: Affine -> Rect)

  function PageOf(width: real, height: real, images: set<string>): Page
    requires width > 0.0 && height > 0.0
  {
    Page(images, (m: Affine) => PageBox(m, width, height))
  }

  predicate HasOperands(tokens: seq<Token>, i: nat) {
    6 <= i <= |tokens| && forall k | i - 6 <= k < i :: tokens[k].Operand?
  }

  function Delta(tokens: seq<Token>, i: nat): Affine
    requires HasOperands(tokens, i)
  {
    Affine(tokens[i - 6].value, tokens[i - 5].value, tokens[i - 4].value,
           tokens[i - 3].value, tokens[i - 2].value, tokens[i - 1].value)
  }

  datatype State = State(stack: seq<Affine>, figures: seq<Figure>)

  function StackTop(stack: seq<Affine>): Affine { if stack == [] then IDENTITY else stack[|stack| - 1] }

  function Step(tokens: seq<Token>, i: nat, s: State, page: Page, compose: Compose): Result<State, StreamError>
    requires i < |tokens|
  {
    match tokens[i]
    case Save => Ok(s.(stack := s.stack + [StackTop(s.stack)]))
    case Restore => if |s.stack| <= 1 then Err(UnbalancedRestore) else Ok(s.(stack := s.stack[..|s.stack| - 1]))
    case Matrix =>
      if i < 6 then Err(MissingOperands)
      else if !HasOperands(tokens, i) then Err(NotNumbers)
      else if s.stack == [] then Ok(s)
      else Ok(s.(stack := s.stack[..|s.stack| - 1] + [compose(StackTop(s.stack), Delta(tokens, i))]))
    case Paint =>
      if i == 0 then Err(MissingName)
      else if !tokens[i - 1].Name? then Err(NotAName)
      else if tokens[i - 1].name !in page.images then Ok(s)
      else
        var box := page.place(StackTop(s.stack));
        if Degenerate(box) then Err(DegenerateCrop)
        else Ok(s.(figures := s.figures + [Figure(tokens[i - 1].name, box)]))
    case _ => Ok(s)
  }

  /** The state after the first `n` tokens. */
  function Run(tokens: seq<Token>, n: nat, page: Page, compose: Compose): Result<State, StreamError>
    requires n <= |tokens|
  {
    if n == 0 then Ok(State([IDENTITY], []))
    else
      var before := Run(tokens, n - 1, page, compose);
      if before.Err? then before else Step(tokens, n - 1, before.value, page, compose)
  }

  lemma {:induction false} ErrorsStay(tokens: seq<Token>, n: nat, k: nat, page: Page, compose: Compose)
    requires n <= k <= |tokens|
    requires Run(tokens, n, page, compose).Err?
    ensures Run(tokens, k, page, compose) == Run(tokens, n, page, compose)
  {
    if n < k { ErrorsStay(tokens, n, k - 1, page, compose); }
  }

  lemma EarlierOk(tokens: seq<Token>, n: nat, k: nat, page: Page, compose: Compose)
    requires n <= k <= |tokens|
    requires Run(tokens, k, page, compose).Ok?
    ensures Run(tokens, n, page, compose).Ok?
  {
    if Run(tokens, n, page, compose).Err? { ErrorsStay(tokens, n, k, page, compose); }
  }

  /** The content-stream loop of `extract_xobjects`. */
  method Extract(tokens: seq<Token>, page: Page) returns (r: Result<seq<Figure>, StreamError>)
    ensures r == match Run(tokens, |tokens|, page, Behind()) case Ok(s) => Ok(s.figures) case Err(e) => Err(e)
    ensures r.Ok? <==> forall i | 0 <= i < |tokens| :: FaultAt(tokens, i, page, Behind()).None?
    ensures r.Ok? ==> r.value == Painted(tokens, |tokens|, page, Behind())
    ensures r.Err? ==> FirstFault(tokens, |tokens|, page, Behind(), r.error)
  {
    RefusedExactly(tokens, |tokens|, page, Behind());
    if Run(tokens, |tokens|, page, Behind()).Ok? { FiguresAreInForce(tokens, |tokens|, page, Behind()); }
    var stack, figures, index := [IDENTITY], [], 0;
    while index < |tokens|
      invariant 0 <= index <= |tokens| && stack != []
      invariant Run(tokens, index, page, Behind()) == Ok(State(stack, figures))
    {
      match tokens[index] {
        case Save => stack := stack + [stack[|stack| - 1]];
        case Restore =>
          if |stack| == 1 { ErrorsStay(tokens, index + 1, |tokens|, page, Behind()); return Err(UnbalancedRestore); }
          stack := stack[..|stack| - 1];
        case Matrix =>
          if index < 6 { ErrorsStay(tokens, index + 1, |tokens|, page, Behind()); return Err(MissingOperands); }
          if !HasOperands(tokens, index) {
            ErrorsStay(tokens, index + 1, |tokens|, page, Behind());
            return Err(NotNumbers);
          }
          stack := stack[..|stack| - 1] + [stack[|stack| - 1].Multiply(Delta(tokens, index))];
        case Paint =>
          if index == 0 { ErrorsStay(tokens, index + 1, |tokens|, page, Behind()); return Err(MissingName); }
          if !tokens[index - 1].Name? { ErrorsStay(tokens, index + 1, |tokens|, page, Behind()); return Err(NotAName); }
          if tokens[index - 1].name in page.images {
            var box := page.place(stack[|stack| - 1]);
            if Degenerate(box) { ErrorsStay(tokens, index + 1, |tokens|, page, Behind()); return Err(DegenerateCrop); }
            figures := figures + [Figure(tokens[index - 1].name, box)];
          }
        case _ =>
      }
      index := index + 1;
    }
    return Ok(figures);
  }

  // ---- what the stack means ----

  /**
   * The matrices in force at token `i`, found by reading the stream backwards: the `cm`
   * operators of scopes still open there, in stream order. `closed` counts scopes that have
   * already been closed on the way back.
   */
  function InForce(tokens: seq<Token>, i: nat, closed: nat): seq<Affine>
    requires i <= |tokens|
  {
    if i == 0 then []
    else match tokens[i - 1]
         case Restore => InForce(tokens, i - 1, closed + 1)
         case Save => InForce(tokens, i - 1, if closed > 0 then closed - 1 else 0)
         case Matrix =>
           if closed == 0 && HasOperands(tokens, i - 1) then InForce(tokens, i - 1, 0) + [Delta(tokens, i - 1)]
           else InForce(tokens, i - 1, closed)
         case _ => InForce(tokens, i - 1, closed)
  }

  /** Every entry of the stack is the matrices in force in its scope, put together one after the other. */
  lemma {:induction false} StackHoldsFolds(tokens: seq<Token>, n: nat, page: Page, compose: Compose, closed: nat)
    requires n <= |tokens|
    requires Run(tokens, n, page, compose).Ok?
    ensures Holds(tokens, n, Run(tokens, n, page, compose).value.stack, compose, closed)
    decreases n
  {
    if n > 0 {
      var before := Run(tokens, n - 1, page, compose).value;
      StackHoldsFolds(tokens, n - 1, page, compose, closed);
      StackHoldsFolds(tokens, n - 1, page, compose, closed + 1);
      if closed > 0 { StackHoldsFolds(tokens, n - 1, page, compose, closed - 1); }
      if tokens[n - 1].Matrix? {
        MatrixHolds(tokens, n - 1, before, page, compose, closed);
      } else {
        ScopeHolds(tokens, n - 1, before, page, compose, closed);
      }
    }
  }

  lemma MatrixHolds(tokens: seq<Token>, i: nat, s: State, page: Page, compose: Compose, closed: nat)
    requires i < |tokens| && tokens[i].Matrix? && Step(tokens, i, s, page, compose).Ok? &&
             Holds(tokens, i, s.stack, compose, closed)
    ensures Holds(tokens, i + 1, Step(tokens, i, s, page, compose).value.stack, compose, closed)
  {
  }

  lemma ScopeHolds(tokens: seq<Token>, i: nat, s: State, page: Page, compose: Compose, closed: nat)
    requires i < |tokens| && !tokens[i].Matrix? && Step(tokens, i, s, page, compose).Ok?
    requires Holds(tokens, i, s.stack, compose, closed) && Holds(tokens, i, s.stack, compose, closed + 1)
    requires closed > 0 ==> Holds(tokens, i, s.stack, compose, closed - 1)
    ensures Holds(tokens, i + 1, Step(tokens, i, s, page, compose).value.stack, compose, closed)
  {
  }

  ghost predicate Holds(tokens: seq<Token>, n: nat, stack: seq<Affine>, compose: Compose, closed: nat)
    requires n <= |tokens|
  {
    stack != [] && (closed < |stack| ==> stack[|stack| - 1 - closed] == Fold(InForce(tokens, n, closed), compose))
  }

  /** In the order of the source, every entry is the in-order product of the matrices in force in its scope. */
  lemma StackHoldsProducts(tokens: seq<Token>, n: nat, page: Page, closed: nat)
    requires n <= |tokens| && Run(tokens, n, page, Behind()).Ok?
    ensures var stack := Run(tokens, n, page, Behind()).value.stack;
            closed < |stack| ==> stack[|stack| - 1 - closed] == Product(InForce(tokens, n, closed))
  {
    StackHoldsFolds(tokens, n, page, Behind(), closed);
  }

  /** What token `i` paints under matrix `m`. */
  function PaintedAt(tokens: seq<Token>, i: nat, m: Affine, page: Page): seq<Figure>
    requires i < |tokens|
  {
    if tokens[i].Paint? && i >= 1 && tokens[i - 1].Name? && tokens[i - 1].name in page.images
    then [Figure(tokens[i - 1].name, page.place(m))] else []
  }

  /** The figures a stream should give: each painted image under the matrices in force at its `Do`. */
  function Painted(tokens: seq<Token>, n: nat, page: Page, compose: Compose): seq<Figure>
    requires n <= |tokens|
  {
    if n == 0 then []
    else
      var m := Fold(InForce(tokens, n - 1, 0), compose);
      Painted(tokens, n - 1, page, compose) + PaintedAt(tokens, n - 1, m, page)
  }

  lemma StepFigures(tokens: seq<Token>, i: nat, s: State, page: Page, compose: Compose)
    requires i < |tokens| && Step(tokens, i, s, page, compose).Ok?
    ensures Step(tokens, i, s, page, compose).value.figures == s.figures + PaintedAt(tokens, i, StackTop(s.stack), page)
  {
  }

  /** The stack machine finds exactly those figures. */
  lemma {:induction false} FiguresAreInForce(tokens: seq<Token>, n: nat, page: Page, compose: Compose)
    requires n <= |tokens|
    requires Run(tokens, n, page, compose).Ok?
    ensures Run(tokens, n, page, compose).value.figures == Painted(tokens, n, page, compose)
  {
    if n > 0 {
      var before := Run(tokens, n - 1, page, compose).value;
      FiguresAreInForce(tokens, n - 1, page, compose);
      var top := StackTop(before.stack);
      assert top == Fold(InForce(tokens, n - 1, 0), compose) by { StackHoldsFolds(tokens, n - 1, page, compose, 0); }
      StepFigures(tokens, n - 1, before, page, compose);
      assert Painted(tokens, n, page, compose) ==
             Painted(tokens, n - 1, page, compose) + PaintedAt(tokens, n - 1, top, page);
    }
  }

  // ---- balanced segments ----

  /** `q` minus `Q` in tokens `i` up to `j`. */
  function Depth(tokens: seq<Token>, i: nat, j: nat): int
    requires i <= j <= |tokens|
  {
    if i == j then 0
    else Depth(tokens, i, j - 1) + (if tokens[j - 1].Save? then 1 else if tokens[j - 1].Restore? then -1 else 0)
  }

  ghost predicate Balanced(tokens: seq<Token>, i: nat, j: nat) {
    i <= j <= |tokens| && (forall k | i <= k <= j :: Depth(tokens, i, k) >= 0) && Depth(tokens, i, j) == 0
  }

  lemma {:induction false} OuterStackUntouched(tokens: seq<Token>, i: nat, k: nat, page: Page, compose: Compose,
                                               outer: seq<Affine>)
    requires i <= k <= |tokens|
    requires forall m | i <= m <= k :: Depth(tokens, i, m) >= 0
    requires Run(tokens, k, page, compose).Ok? && Run(tokens, i, page, compose).Ok?
    requires |Run(tokens, i, page, compose).value.stack| == |outer| + 1 &&
             outer <= Run(tokens, i, page, compose).value.stack
    ensures var stack := Run(tokens, k, page, compose).value.stack;
            |stack| == |outer| + 1 + Depth(tokens, i, k) && outer <= stack
    decreases k
  {
    if i < k {
      EarlierOk(tokens, k - 1, k, page, compose);
      OuterStackUntouched(tokens, i, k - 1, page, compose, outer);
      assert Depth(tokens, i, k) >= 0 && Depth(tokens, i, k - 1) >= 0;
    }
  }

  /** A balanced segment between `q` and its `Q` leaves the matrix stack as it was. */
  lemma BalancedScopeRestores(tokens: seq<Token>, i: nat, j: nat, page: Page, compose: Compose)
    requires i < j < |tokens|
    requires tokens[i].Save? && tokens[j].Restore? && Balanced(tokens, i + 1, j)
    requires Run(tokens, j + 1, page, compose).Ok?
    ensures Run(tokens, i, page, compose).Ok?
    ensures Run(tokens, j + 1, page, compose).value.stack == Run(tokens, i, page, compose).value.stack
  {
    EarlierOk(tokens, i, j + 1, page, compose);
    EarlierOk(tokens, i + 1, j + 1, page, compose);
    EarlierOk(tokens, j, j + 1, page, compose);
    var outer := Run(tokens, i, page, compose).value.stack;
    OuterStackUntouched(tokens, i + 1, j, page, compose, outer);
  }

  // ---- where the image of the unit square lies ----

  lemma ClampMonotone(u: real, v: real)
    requires u <= v
    ensures Clamp01(u) <= Clamp01(v)
  {
  }

  lemma DivideMonotone(u: real, v: real, d: real)
    requires u <= v && d > 0.0
    ensures u / d <= v / d
  {
    CrossMultiply(u, d, v, d);
  }

  /** A figure's box covers every point of the image, taken through the matrices in force one after the other. */
  lemma FigureCoversImage(tokens: seq<Token>, i: nat, width: real, height: real, images: set<string>, figure: Figure,
                          x: real, y: real)
    requires i < |tokens| && width > 0.0 && height > 0.0 && 0.0 <= x <= 1.0 && 0.0 <= y <= 1.0
    requires PaintedAt(tokens, i, Product(InForce(tokens, i, 0)), PageOf(width, height, images)) == [figure]
    ensures Covers(figure.box, ActInTurn(InForce(tokens, i, 0), x, y), width, height)
  {
    var ms := InForce(tokens, i, 0);
    PaintedBox(tokens, i, Product(ms), width, height, images, figure);
    ProductActsInTurn(ms, x, y);
    PageBoxCovers(Product(ms), figure.box, ActInTurn(ms, x, y), width, height, x, y);
  }

  /** The point, normalised to the page and clamped, lies in the box. */
  predicate Covers(box: Rect, p: (real, real), width: real, height: real)
    requires width > 0.0 && height > 0.0
  {
    Encloses(box, Clamp01(p.0 / width), Clamp01((height - p.1) / height))
  }

  lemma PaintedBox(tokens: seq<Token>, i: nat, m: Affine, width: real, height: real, images: set<string>,
                   figure: Figure)
    requires i < |tokens| && width > 0.0 && height > 0.0 &&
             PaintedAt(tokens, i, m, PageOf(width, height, images)) == [figure]
    ensures figure.box == PageBox(m, width, height)
  {
  }

  lemma PageBoxCovers(m: Affine, box: Rect, p: (real, real), width: real, height: real, x: real, y: real)
    requires width > 0.0 && height > 0.0 && 0.0 <= x <= 1.0 && 0.0 <= y <= 1.0
    requires box == PageBox(m, width, height) && p == m.Apply(x, y)
    ensures Covers(box, p, width, height)
  {
    CornersEnclose(m, x, y);
    var corners := CornerBox(m);
    ClampedBetween(corners.x0, p.0, corners.x1, width);
    ClampedBetween(height - corners.y1, height - p.1, height - corners.y0, height);
  }

  lemma ClampedBetween(u: real, v: real, w: real, d: real)
    requires u <= v <= w && d > 0.0
    ensures Clamp01(u / d) <= Clamp01(v / d) <= Clamp01(w / d)
  {
    DivideMonotone(u, v, d);
    DivideMonotone(v, w, d);
    ClampMonotone(u / d, v / d);
    ClampMonotone(v / d, w / d);
  }

  ghost predicate CoversImage(box: Rect, m: Affine, width: real, height: real)
    requires width > 0.0 && height > 0.0
  {
    forall x, y | 0.0 <= x <= 1.0 && 0.0 <= y <= 1.0 :: Covers(box, m.Apply(x, y), width, height)
  }

  /** A matrix moves the origin by `(e, f)` and takes the two axes to `(a, b)` and `(c, d)`. */
  predicate TakesCorners(m: Affine) {
    && m.Apply(0.0, 0.0) == (m.e, m.f) && m.Apply(1.0, 1.0) == (m.a + m.c + m.e, m.b + m.d + m.f)
    && m.Apply(1.0, 0.0) == (m.a + m.e, m.b + m.f) && m.Apply(0.0, 1.0) == (m.c + m.e, m.d + m.f)
  }

  /** The page box covers the whole image, normalised and clamped, and no smaller box does. */
  lemma PageBoxIsTight(m: Affine, width: real, height: real, box: Rect)
    requires width > 0.0 && height > 0.0
    ensures TakesCorners(m)
    ensures CoversImage(PageBox(m, width, height), m, width, height)
    ensures CoversImage(box, m, width, height) ==>
              var least := PageBox(m, width, height);
              box.x0 <= least.x0 && box.y0 <= least.y0 && least.x1 <= box.x1 && least.y1 <= box.y1
  {
    forall x, y | 0.0 <= x <= 1.0 && 0.0 <= y <= 1.0
      ensures Covers(PageBox(m, width, height), m.Apply(x, y), width, height)
    {
      PageBoxCovers(m, PageBox(m, width, height), m.Apply(x, y), width, height, x, y);
    }
    if CoversImage(box, m, width, height) { PageCornersInside(m, width, height, box); }
  }

  lemma PageCornersInside(m: Affine, width: real, height: real, box: Rect)
    requires width > 0.0 && height > 0.0 && CoversImage(box, m, width, height)
    ensures var least := PageBox(m, width, height);
            box.x0 <= least.x0 && box.y0 <= least.y0 && least.x1 <= box.x1 && least.y1 <= box.y1
  {
    var p, q, r, s := m.Apply(0.0, 0.0), m.Apply(1.0, 0.0), m.Apply(0.0, 1.0), m.Apply(1.0, 1.0);
    assert Covers(box, p, width, height) && Covers(box, q, width, height);
    assert Covers(box, r, width, height) && Covers(box, s, width, height);
    var c := CornerBox(m);
    assert c.x0 in {p.0, q.0, r.0, s.0} && c.x1 in {p.0, q.0, r.0, s.0};
    assert c.y0 in {p.1, q.1, r.1, s.1} && c.y1 in {p.1, q.1, r.1, s.1};
  }

  // ---- which streams are refused ----

  /** What is wrong with token `i`, read off the stream alone, when nothing before it is wrong. */
  function FaultAt(tokens: seq<Token>, i: nat, page: Page, compose: Compose): Option<StreamError>
    requires i < |tokens|
  {
    match tokens[i]
    case Restore => if Depth(tokens, 0, i) <= 0 then Some(UnbalancedRestore) else None
    case Matrix =>
      if i < 6 then Some(MissingOperands)
      else if exists k :: i - 6 <= k < i && !tokens[k].Operand? then Some(NotNumbers) else None
    case Paint =>
      if i == 0 then Some(MissingName)
      else if !tokens[i - 1].Name? then Some(NotAName)
      else if tokens[i - 1].name in page.images &&
              Degenerate(page.place(Fold(InForce(tokens, i, 0), compose))) then Some(DegenerateCrop)
      else None
    case _ => None
  }

  ghost predicate FirstFault(tokens: seq<Token>, n: nat, page: Page, compose: Compose, error: StreamError)
    requires n <= |tokens|
  {
    exists i :: 0 <= i < n && FaultAt(tokens, i, page, compose) == Some(error) &&
                forall k | 0 <= k < i :: FaultAt(tokens, k, page, compose).None?
  }

  lemma StepRefusesExactly(tokens: seq<Token>, i: nat, s: State, page: Page, compose: Compose)
    requires i < |tokens| && |s.stack| == 1 + Depth(tokens, 0, i)
    requires StackTop(s.stack) == Fold(InForce(tokens, i, 0), compose)
    ensures match Step(tokens, i, s, page, compose)
            case Err(e) => FaultAt(tokens, i, page, compose) == Some(e)
            case Ok(after) =>
              FaultAt(tokens, i, page, compose).None? && |after.stack| == 1 + Depth(tokens, 0, i + 1)
  {
  }

  /** A stream is refused exactly when one of its tokens is wrong, for what is wrong with the first of these. */
  lemma {:induction false} RefusedExactly(tokens: seq<Token>, n: nat, page: Page, compose: Compose)
    requires n <= |tokens|
    ensures match Run(tokens, n, page, compose)
            case Err(e) => FirstFault(tokens, n, page, compose, e)
            case Ok(s) =>
              && (forall i | 0 <= i < n :: FaultAt(tokens, i, page, compose).None?)
              && |s.stack| == 1 + Depth(tokens, 0, n)
  {
    if n > 0 {
      RefusedExactly(tokens, n - 1, page, compose);
      match Run(tokens, n - 1, page, compose)
      case Err(e) =>
        var i :| 0 <= i < n - 1 && FaultAt(tokens, i, page, compose) == Some(e) &&
                 forall k | 0 <= k < i :: FaultAt(tokens, k, page, compose).None?;
        assert 0 <= i < n;
      case Ok(s) =>
        StackHoldsFolds(tokens, n - 1, page, compose, 0);
        StepRefusesExactly(tokens, n - 1, s, page, compose);
    }
  }
}
