/** Errors as the two services produce and pass them on: gRPC status errors, plain Go
    errors (a transport failure, a mock's `errors.New`), and errors wrapped with `%w`. */
module Errors {

  /** The gRPC status codes the services produce or that a transport may report. */
  datatype Code = NotFound | Unavailable | Internal | Unknown

  datatype Error =
    | Status(code: Code, desc: string)       // built by status.Errorf / status.Error
    | Plain(text: string)                    // built by errors.New, e.g. "connection refused"
    | Wrapped(context: string, cause: Error) // built by fmt.Errorf(context + ": %w", cause)

  /** `t` occurs in `s` starting at position `i`. */
  predicate OccursAt(s: string, t: string, i: int) {
    0 <= i <= |s| - |t| && s[i..i + |t|] == t
  }

  /** `s` has `t` as a contiguous part. */
  ghost predicate Mentions(s: string, t: string) {
    exists i :: OccursAt(s, t, i)
  }

  predicate IsSuffix(t: string, s: string) {
    |t| <= |s| && s[|s| - |t|..] == t
  }

  /** What `err.Error()` returns; for a status error only its description is modelled. */
  function Text(e: Error): (t: string)
    ensures e.Wrapped? ==> |e.context| <= |t| && t[..|e.context|] == e.context
    ensures e.Wrapped? ==> IsSuffix(Text(e.cause), t)
  {
    match e
    case Status(_, desc) => desc
    case Plain(text) => text
    case Wrapped(context, cause) => context + ": " + Text(cause)
  }

  /** The innermost cause, reached by unwrapping until nothing is wrapped. */
  function Root(e: Error): (r: Error)
    ensures !r.Wrapped?
    ensures Is(e, r)
  {
    if e.Wrapped? then Root(e.cause) else e
  }

  /** `errors.Is(e, target)`: `target` is `e` or occurs in its chain of causes. */
  predicate Is(e: Error, target: Error) {
    e == target || (e.Wrapped? && Is(e.cause, target))
  }

  /** `fmt.Errorf(context + ": %w", cause)`: adds context and keeps the cause reachable. */
  function Wrap(context: string, cause: Error): (e: Error)
    ensures Is(e, cause) && Root(e) == Root(cause)
    ensures |context| <= |Text(e)| && Text(e)[..|context|] == context
    ensures IsSuffix(Text(cause), Text(e))
  {
    Wrapped(context, cause)
  }

  /** Wrapping never hides the root cause's text: it stays at the end of the message. */
  lemma {:induction false} RootTextIsSuffix(e: Error)
    ensures IsSuffix(Text(Root(e)), Text(e))
  {
    if e.Wrapped? {
      RootTextIsSuffix(e.cause);
      SuffixTransitive(Text(Root(e)), Text(e.cause), Text(e));
    }
  }

  lemma SuffixTransitive(r: string, t: string, s: string)
    requires IsSuffix(r, t) && IsSuffix(t, s)
    ensures IsSuffix(r, s)
  {
  }

  /** What a message says survives being placed at its end by a wrapper. */
  lemma MentionsInSuffix(s: string, t: string, id: string)
    requires IsSuffix(t, s) && Mentions(t, id)
    ensures Mentions(s, id)
  {
    var i :| OccursAt(t, id, i);
    var j := |s| - |t| + i;
    assert s[j..j + |id|] == t[i..i + |id|];
    assert OccursAt(s, id, j);
  }
}
