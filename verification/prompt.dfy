/** The input validator `PromptStr` hands to the prompt (`prompt.go`,
    lines 12-25): a value is accepted exactly when it holds no space, tab,
    carriage return or line feed. */
module Prompt {
  import opened Optional

  /** The only message a rejection carries (prompt.go:22). */
  const Rejection := "Only strings are allowed (no spaces)"

  /** The four characters the validator refuses. */
  predicate IsBlank(c: char)
  {
    c == ' ' || c == '\t' || c == '\r' || c == '\n'
  }

  /** A value the validator lets through. */
  predicate Acceptable(s: string)
  {
    forall i :: 0 <= i < |s| ==> !IsBlank(s[i])
  }

  /** The validator closure: walks the value character by character and
      fails at the first blank one; an error is `Some(message)`. */
  method Validate(s: string) returns (err: Option<string>)
    ensures err.None? <==> Acceptable(s)
    ensures err.Some? ==> err.value == Rejection
  {
    var i := 0;
    while i < |s|
      invariant 0 <= i <= |s|
      invariant Acceptable(s[..i])
    {
      if IsBlank(s[i]) {
        return Some(Rejection);
      }
      assert s[..i + 1] == s[..i] + [s[i]];
      i := i + 1;
    }
    assert s[..i] == s;
    return None;
  }

  /** The check is made per character, so a concatenation is accepted
      exactly when both parts are. */
  lemma AcceptableConcat(s: string, t: string)
    ensures Acceptable(s + t) <==> Acceptable(s) && Acceptable(t)
  {
    if Acceptable(s + t) {
      forall i | 0 <= i < |s|
        ensures !IsBlank(s[i])
      {
        assert (s + t)[i] == s[i];
      }
      forall i | 0 <= i < |t|
        ensures !IsBlank(t[i])
      {
        assert (s + t)[|s| + i] == t[i];
      }
    }
  }

  /** Only the four blank characters matter: putting any other character,
      a Unicode space such as the no-break space included, anywhere in a
      value leaves the verdict unchanged. */
  lemma OthersIgnored(s: string, t: string, c: char)
    requires !IsBlank(c)
    ensures Acceptable(s + [c] + t) <==> Acceptable(s + t)
  {
    AcceptableConcat(s, t);
    AcceptableConcat(s + [c], t);
    AcceptableConcat(s, [c]);
  }
}
