# kerrors in Dafny

A model of `kerrors`, a small Go library that wraps errors under a category.
A `JoinedError` record holds a message and an optional wrapped cause; the
three category types `ValueError`, `SystemError` and `NetworkError` embed it
and add nothing else. Each category has a constructor. A wrapper renders as
`msg + ": " + cause text`, or as `msg` alone when there is no cause. Its
`Unwrap` returns the stored cause unchanged.

Files:

- `wrappers.dfy`: `Option`, standing for Go's nil-able `error` (nil is `None`).
- `kerrors.dfy` (module `KErrors`): the library (lib.go). `Err` is a non-nil
  error: `Foreign(id, text)` for errors the library did not make
  (`errors.New`, the `os` sentinels), and `Categorized(cat, JoinedError(msg, wrapped))`
  for the three category types. `Render` is `Error()`, `Unwrap` is the
  single-step unwrap, and `NewValueError`, `NewSystemError` and
  `NewNetworkError` are the constructors. The chain walks that callers run
  over `Unwrap` are `IsInChain` (Go's `errors.Is`) and `HasCategory`
  (`errors.As` with a category pointer type). `Chain` is the list of errors
  that repeated unwrapping visits, and the walks are proved against it.
  `Depth`, the length of that list, drops by one with each `Unwrap`, so
  every walk terminates.
- `substring.dfy` (module `Substring`): the recursive `containsSubstring`
  helper that the tests state their rendering assertions with. It is proved
  equal to "some index holds an occurrence".
- `scenarios.dfy` (module `Scenarios`): the test cases of lib_test.go,
  stated for every category at once, plus a case with two nested wrappers.

A wrapper is not matched by its own category alone. `errors.As` walks the
whole chain, so a wrapper also matches the category of any wrapper below
it. The model follows the code here. `NewMatchesCategory` states both
directions: a new wrapper matches another category exactly when its
cause's chain does.

## Model

| member | source | states |
|---|---|---|
| `KErrors.Render` | lib.go:15-20 | a wrapper's text starts with its message, and is exactly the message when there is no cause |
| `KErrors.Unwrap` | lib.go:22-24 | unwrapping yields a cause exactly when the chain is longer than one, and that cause's chain is one shorter |
| `KErrors.Chain` | lib.go:22-24 | the chain starts at the error, each element unwraps to the next, and the last unwraps to nothing |
| `KErrors.IsInChain` | lib_test.go:22 | a target found on the chain is no deeper than the error searched |
| `KErrors.HasCategory` | lib.go:11-13 | only an error of the library's own types can match a category |
| `KErrors.NewValueError` | lib.go:27-34 | the result has category Value and the given message, unwraps to the given cause, and renders as the message (plus `": "` and the cause text when there is a cause) |
| `KErrors.NewSystemError` | lib.go:36-43 | the same for category System |
| `KErrors.NewNetworkError` | lib.go:45-52 | the same for category Network |
| `KErrors.IsInChainIffInChain` | lib.go:22-24 | the `errors.Is` walk succeeds if and only if the target is an element of the chain |
| `KErrors.HasCategoryIffInChain` | lib_test.go:26-29 | the `errors.As` walk succeeds if and only if some element of the chain has that category |
| `KErrors.IsInChainTransitive` | lib.go:22-24 | whatever is on the chain of a chain member is on the chain |
| `KErrors.RenderJoinsChain` | lib.go:15-20 | the text is the `": "`-join of every message down the chain, ending with the root cause's own text |
| `KErrors.RenderSuffix` | lib.go:17 | the text of every error on the chain is a suffix of the text of the outer error |
| `KErrors.RenderContainsChain` | lib.go:17 | the text contains the message and the text of every error on the chain |
| `KErrors.ChainOfNew` | lib.go:27-52 | a new wrapper's chain is the wrapper followed by its cause's chain, or the wrapper alone |
| `KErrors.NewKeepsCause` | lib.go:27-52 | a target is on a new wrapper's chain if and only if it is the wrapper or is on the cause's chain; the cause itself always is |
| `KErrors.NewMatchesCategory` | lib.go:27-52 | a new wrapper matches its own category, and another category if and only if the cause's chain matches it |
| `KErrors.NewRenderContainsParts` | lib.go:17 | a new wrapper's text contains its message and its cause's text |
| `Substring.ContainsSubstring` | lib_test.go:191-194 | false when the pattern is longer than the text; true for the empty pattern and for the text itself |
| `Substring.ContainsIffOccurs` | lib_test.go:191-193 | the recursive test holds if and only if the pattern occurs at some index of the text |
| `Substring.PrefixContained` | lib_test.go:193 | a prefix of the text is contained in it |
| `Substring.TailContained` | lib_test.go:193 | what the text without its first character contains, the text contains |
| `Substring.InfixContained` | lib_test.go:191-193 | the middle part of a concatenation of three is contained in it |
| `Substring.SuffixContained` | lib_test.go:191-193 | a suffix of the text, and every prefix of that suffix, is contained in the text |
| `Scenarios.WrapsCustomError` | lib_test.go:12-30 | wrapping `errors.New(text)` renders `msg: text`, contains both, finds the base on the chain, and matches this category and no other |
| `Scenarios.WrapsNilError` | lib_test.go:32-49 | wrapping nil renders the message alone, unwraps to nothing, and matches the category |
| `Scenarios.WrapsSentinelError` | lib_test.go:51-68 | wrapping an `os` sentinel contains its text, finds it on the chain, and matches the category |
| `Scenarios.ValueProcessingFailed` | lib_test.go:13-20 | the literal case renders `"Value processing failed: invalid value"` |
| `Scenarios.NestedWrappers` | lib.go:15-24 | through two wrappers the base and both categories are found, and the text joins all three parts |

## Left out

- The Go test harness (`t.Run`, `t.Fatal`, `t.Errorf`): the test cases are stated as lemmas instead.
- `err == nil` checks on constructor results: a constructor returns an `Err`, which is never nil, so these hold by typing.
- The reflection behind `errors.Is` and `errors.As`: custom `Is`/`As` methods and multi-error `Unwrap() []error` are not modelled. The walks follow single-step `Unwrap` only.
- Foreign errors that wrap another error (for example one made by `fmt.Errorf` with `%w`): every `Foreign` error unwraps to nothing. The tests only use `errors.New` errors and `os` sentinels, which do not wrap.
- `fmt.Sprintf` in general: only `%s` on a string and `%v` on an error (which prints its `Error()` text) are modelled.
- Pointer identity: Go's `errors.Is` compares pointers, while the model compares values. Two wrappers with equal contents are equal here. Foreign errors carry an `id` so that two `errors.New` calls with the same text stay distinct.
- The value-receiver `Error` and the pointer-receiver `Unwrap` (lib.go:15, 22): the model does not distinguish method sets.
- A typed nil pointer passed as a cause (non-nil interface holding a nil pointer): not representable in the model.
- Cyclic cause chains: they cannot be built with the immutable constructors.
- Byte strings: Go's `len` and slicing in `containsSubstring` count bytes. The model uses `string` and counts characters, which agrees on the ASCII texts of the tests.
- The text of the `os` sentinel errors: left open, as any `Foreign` text.
