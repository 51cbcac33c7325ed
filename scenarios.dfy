/** The cases of lib_test.go, stated as properties of the model. A custom
    cause `errors.New(text)` is `Foreign(id, text)`; an `os` sentinel error
    (`os.ErrNotExist`, `os.ErrPermission`, `os.ErrDeadlineExceeded`) is any
    foreign error `sentinel`, whose text is left open. */
module Scenarios {
  import opened Wrappers
  import opened KErrors
  import opened Substring

  /** "wraps custom error": the text holds both parts, the base is on the
      chain, and the category match finds this category and no other. */
  lemma {:induction false} WrapsCustomError(cat: Category, msg: string, id: nat, text: string, other: Category)
    requires other != cat
    ensures var base := Foreign(id, text);
            var err := New(cat, msg, Some(base));
            && Render(err) == msg + ": " + text
            && ContainsSubstring(Render(err), msg)
            && ContainsSubstring(Render(err), text)
            && IsInChain(err, base)
            && HasCategory(err, cat)
            && !HasCategory(err, other)
  {
    var base := Foreign(id, text);
    NewRenderContainsParts(cat, msg, base);
    NewKeepsCause(cat, msg, Some(base), base);
    NewMatchesCategory(cat, msg, Some(base), other);
  }

  /** "wraps nil error": the text is the message alone and nothing unwraps. */
  lemma WrapsNilError(cat: Category, msg: string)
    ensures var err := New(cat, msg, None);
            && Render(err) == msg
            && Unwrap(err) == None
            && HasCategory(err, cat)
  {
  }

  /** "wraps standard library error": the sentinel's text is in the
      rendering and the sentinel is on the chain. */
  lemma {:induction false} WrapsSentinelError(cat: Category, msg: string, sentinel: Err)
    requires sentinel.Foreign?
    ensures var err := New(cat, msg, Some(sentinel));
            && ContainsSubstring(Render(err), msg)
            && ContainsSubstring(Render(err), sentinel.text)
            && IsInChain(err, sentinel)
            && HasCategory(err, cat)
  {
    NewRenderContainsParts(cat, msg, sentinel);
    NewKeepsCause(cat, msg, Some(sentinel), sentinel);
  }

  /** The first case of TestValueError with its literal texts. */
  lemma ValueProcessingFailed(id: nat)
    ensures Render(NewValueError("Value processing failed", Some(Foreign(id, "invalid value"))))
            == "Value processing failed: invalid value"
  {
  }

  /** Two nested wrappers: the base is found through both, and so is the
      inner wrapper's category; the text joins all three parts. */
  lemma NestedWrappers(outer: string, inner: string, base: Err)
    ensures var err := NewValueError(outer, Some(NewSystemError(inner, Some(base))));
            && IsInChain(err, base)
            && HasCategory(err, System)
            && HasCategory(err, Value)
            && Render(err) == outer + ": " + inner + ": " + Render(base)
  {
  }

}
