/** `CheckBlank`: the gateway's guard against empty or whitespace-only parameters. */
module CheckBlank {
  import opened Wrappers
  import opened Domain
  import opened Text

  /** `checkNotBlank`: a blank value is refused with a message naming the
      parameter; any other value passes. */
  function CheckNotBlank(s: string, parameterName: string): (r: Outcome<Error>)
    ensures r.Fail? <==> IsBlank(s)
    ensures r.Fail? ==> r.error == ValidationException(parameterName + " не может быть пустым")
  {
    if IsBlank(s) then Fail(ValidationException(parameterName + " не может быть пустым")) else Pass
  }

  /** A value made of two parts is refused exactly when both parts would be. */
  lemma {:induction false} CheckNotBlankConcat(s: string, t: string, parameterName: string)
    ensures CheckNotBlank(s + t, parameterName).Fail? <==>
      CheckNotBlank(s, parameterName).Fail? && CheckNotBlank(t, parameterName).Fail?
  {
    assert forall i :: 0 <= i < |s| ==> (s + t)[i] == s[i];
    assert forall i :: 0 <= i < |t| ==> (s + t)[|s| + i] == t[i];
  }

  /** A value with a visible character anywhere passes. */
  lemma VisibleCharacterPasses(s: string, at: nat, parameterName: string)
    requires at < |s| && !IsWhitespace(s[at])
    ensures CheckNotBlank(s, parameterName) == Pass
  {
  }
}
