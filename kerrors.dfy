/** Errors wrapped under a category (lib.go): a `JoinedError` record holding a
    message and an optional cause, embedded in one of three category types.
    The chain walks that callers use with it (`errors.Unwrap`, `errors.Is`,
    `errors.As` of Go's standard library) are modelled here as functions over
    the single-step `Unwrap`. */
module KErrors {
  import opened Wrappers
  import Substring

  /** The three category types `ValueError`, `SystemError`, `NetworkError`. */
  datatype Category = Value | System | Network

  /** The embedded record: `Msg` and `WrappedError` (nil is `None`). */
  datatype JoinedError = JoinedError(msg: string, wrapped: Option<Err>)

  /** A non-nil Go `error`. `Foreign` is any error not made by this library
      (`errors.New(...)`, the `os` sentinels): its identity and its text.
      `Categorized` is a pointer to one of the three category types. */
  datatype Err =
    | Foreign(id: nat, text: string)
    | Categorized(cat: Category, joined: JoinedError)

  /** The number of errors on the chain that starts at `e`, `e` included. */
  function Depth(e: Err): (d: nat)
    ensures d >= 1
  {
    match e
    case Foreign(_, _) => 1
    case Categorized(_, JoinedError(_, None)) => 1
    case Categorized(_, JoinedError(_, Some(c))) => 1 + Depth(c)
  }

  /** `e.Error()`: a wrapper renders its message, then ": " and its cause's
      text when it has a cause; a foreign error renders its own text. */
  function Render(e: Err): (s: string)
    ensures e.Categorized? ==> e.joined.msg <= s
    ensures e.Categorized? && e.joined.wrapped.None? ==> s == e.joined.msg
  {
    match e
    case Foreign(_, text) => text
    case Categorized(_, JoinedError(msg, None)) => msg
    case Categorized(_, JoinedError(msg, Some(c))) => msg + ": " + Render(c)
  }

  /** `errors.Unwrap(e)`: the stored cause of a wrapper (the `Unwrap` method of
      `*JoinedError`); nothing for a foreign error, which has no `Unwrap`. */
  function Unwrap(e: Err): (r: Option<Err>)
    ensures r.Some? <==> Depth(e) > 1
    ensures r.Some? ==> Depth(r.value) == Depth(e) - 1
  {
    match e
    case Foreign(_, _) => None
    case Categorized(_, j) => j.wrapped
  }

  /** The category type of `e` itself, if it is one of the library's types. */
  function CategoryOf(e: Err): Option<Category>
  {
    match e
    case Foreign(_, _) => None
    case Categorized(cat, _) => Some(cat)
  }

  /** The text a chain element contributes to a rendering. */
  function Label(e: Err): string
  {
    match e
    case Foreign(_, text) => text
    case Categorized(_, j) => j.msg
  }

  /** The chain of `e`: `e`, then each successive `Unwrap`, ending at the
      first error that unwraps to nothing. */
  function Chain(e: Err): (es: seq<Err>)
    ensures |es| == Depth(e) && es[0] == e
    ensures forall i :: 0 <= i < |es| - 1 ==> Unwrap(es[i]) == Some(es[i + 1])
    ensures Unwrap(es[|es| - 1]) == None
    decreases Depth(e)
  {
    match Unwrap(e)
    case None => [e]
    case Some(c) => [e] + Chain(c)
  }

  /** `errors.Is(e, target)`: some error on the chain of `e` equals `target`. */
  function IsInChain(e: Err, target: Err): (r: bool)
    ensures r ==> Depth(target) <= Depth(e)
    decreases Depth(e)
  {
    e == target || (Unwrap(e).Some? && IsInChain(Unwrap(e).value, target))
  }

  /** `errors.As(e, &p)` with `p` of the category type `c`: some error on the
      chain of `e` has category `c`. */
  function HasCategory(e: Err, c: Category): (r: bool)
    ensures r ==> e.Categorized?
    decreases Depth(e)
  {
    CategoryOf(e) == Some(c) || (Unwrap(e).Some? && HasCategory(Unwrap(e).value, c))
  }

  /** `NewValueError(msg, err)`. */
  function NewValueError(msg: string, err: Option<Err>): (r: Err)
    ensures CategoryOf(r) == Some(Value) && Label(r) == msg
    ensures Unwrap(r) == err
    ensures Render(r) == if err.Some? then msg + ": " + Render(err.value) else msg
  {
    Categorized(Value, JoinedError(msg, err))
  }

  /** `NewSystemError(msg, err)`. */
  function NewSystemError(msg: string, err: Option<Err>): (r: Err)
    ensures CategoryOf(r) == Some(System) && Label(r) == msg
    ensures Unwrap(r) == err
    ensures Render(r) == if err.Some? then msg + ": " + Render(err.value) else msg
  {
    Categorized(System, JoinedError(msg, err))
  }

  /** `NewNetworkError(msg, err)`. */
  function NewNetworkError(msg: string, err: Option<Err>): (r: Err)
    ensures CategoryOf(r) == Some(Network) && Label(r) == msg
    ensures Unwrap(r) == err
    ensures Render(r) == if err.Some? then msg + ": " + Render(err.value) else msg
  {
    Categorized(Network, JoinedError(msg, err))
  }

  /** The constructor for category `cat`. */
  function New(cat: Category, msg: string, err: Option<Err>): Err
  {
    match cat
    case Value => NewValueError(msg, err)
    case System => NewSystemError(msg, err)
    case Network => NewNetworkError(msg, err)
  }

  /** `: `-joins a non-empty list of texts. */
  function JoinColon(parts: seq<string>): string
    requires |parts| > 0
  {
    if |parts| == 1 then parts[0] else parts[0] + ": " + JoinColon(parts[1..])
  }

  /** The labels of the errors of a chain, in order. */
  function Labels(es: seq<Err>): (ls: seq<string>)
    ensures |ls| == |es|
  {
    seq(|es|, i requires 0 <= i < |es| => Label(es[i]))
  }

  // ---------------------------------------------------------------------------
  // Chain walks

  /** `IsInChain` is membership in the chain. */
  lemma {:induction false} IsInChainIffInChain(e: Err, target: Err)
    ensures IsInChain(e, target) <==> target in Chain(e)
    decreases Depth(e)
  {
    match Unwrap(e)
    case None =>
    case Some(c) =>
      IsInChainIffInChain(c, target);
      assert Chain(e) == [e] + Chain(c);
  }

  /** `HasCategory` finds exactly the categories of the chain's errors. */
  lemma {:induction false} HasCategoryIffInChain(e: Err, c: Category)
    ensures HasCategory(e, c) <==> exists x :: x in Chain(e) && CategoryOf(x) == Some(c)
    decreases Depth(e)
  {
    match Unwrap(e)
    case None =>
      assert Chain(e) == [e];
    case Some(d) =>
      HasCategoryIffInChain(d, c);
      assert Chain(e) == [e] + Chain(d);
  }

  /** The walk is transitive: what is on the chain of a chain member is on the chain. */
  lemma {:induction false} IsInChainTransitive(e: Err, m: Err, target: Err)
    requires IsInChain(e, m) && IsInChain(m, target)
    ensures IsInChain(e, target)
    decreases Depth(e)
  {
    if e != m {
      IsInChainTransitive(Unwrap(e).value, m, target);
    }
  }

  // ---------------------------------------------------------------------------
  // Rendering

  /** The rendering is the `: `-join of every message down the chain, ending
      with the root cause's own text. */
  lemma {:induction false} RenderJoinsChain(e: Err)
    ensures Render(e) == JoinColon(Labels(Chain(e)))
    decreases Depth(e)
  {
    match e
    case Foreign(_, _) =>
      assert Chain(e) == [e];
    case Categorized(_, JoinedError(msg, None)) =>
      assert Chain(e) == [e];
    case Categorized(_, JoinedError(msg, Some(c))) =>
      RenderJoinsChain(c);
      var ls := Labels(Chain(e));
      assert Chain(e) == [e] + Chain(c);
      assert ls[0] == msg;
      assert ls[1..] == Labels(Chain(c));
  }

  /** Every rendering on the chain of `e` is a suffix of the rendering of `e`. */
  lemma {:induction false} RenderSuffix(e: Err, x: Err)
    requires x in Chain(e)
    ensures |Render(x)| <= |Render(e)|
    ensures Render(e)[|Render(e)| - |Render(x)|..] == Render(x)
    decreases Depth(e)
  {
    if x != e {
      var c := Unwrap(e).value;
      assert Chain(e) == [e] + Chain(c);
      RenderSuffix(c, x);
      var head := e.joined.msg + ": ";
      assert Render(e) == head + Render(c);
      assert Render(e)[|head|..] == Render(c);
    }
  }

  /** The rendering of `e` contains the message and the rendering of every
      error on its chain. */
  lemma RenderContainsChain(e: Err, x: Err)
    requires x in Chain(e)
    ensures Substring.ContainsSubstring(Render(e), Label(x))
    ensures Substring.ContainsSubstring(Render(e), Render(x))
  {
    RenderSuffix(e, x);
    assert Label(x) <= Render(x);
    Substring.SuffixContained(Render(e), Render(x), Label(x));
  }

  // ---------------------------------------------------------------------------
  // Constructors

  /** A freshly built wrapper's chain is itself followed by its cause's chain. */
  lemma ChainOfNew(cat: Category, msg: string, err: Option<Err>)
    ensures Chain(New(cat, msg, err)) == [New(cat, msg, err)] + (if err.Some? then Chain(err.value) else [])
  {
  }

  /** The cause, and everything on its chain, is found from the wrapper; the
      wrapper adds only itself. */
  lemma NewKeepsCause(cat: Category, msg: string, err: Option<Err>, target: Err)
    ensures IsInChain(New(cat, msg, err), target) <==>
      target == New(cat, msg, err) || (err.Some? && IsInChain(err.value, target))
    ensures err.Some? ==> IsInChain(New(cat, msg, err), err.value)
  {
  }

  /** A wrapper matches its own category, and any other category only when
      that category is on its cause's chain. */
  lemma NewMatchesCategory(cat: Category, msg: string, err: Option<Err>, c: Category)
    ensures HasCategory(New(cat, msg, err), cat)
    ensures HasCategory(New(cat, msg, err), c) <==>
      c == cat || (err.Some? && HasCategory(err.value, c))
  {
  }

  /** The rendering of a wrapper contains its message and its cause's text. */
  lemma NewRenderContainsParts(cat: Category, msg: string, c: Err)
    ensures Substring.ContainsSubstring(Render(New(cat, msg, Some(c))), msg)
    ensures Substring.ContainsSubstring(Render(New(cat, msg, Some(c))), Render(c))
  {
    var e := New(cat, msg, Some(c));
    Substring.InfixContained([], msg, ": " + Render(c));
    assert Render(e) == [] + msg + (": " + Render(c));
    Substring.InfixContained(msg + ": ", Render(c), []);
    assert Render(e) == (msg + ": ") + Render(c) + [];
  }

}
