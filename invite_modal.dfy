/** The team-invitation dialog (src/components/InviteModal.js): one address field, the
    check made before the invitation is sent, and the error shown under the field. */
module InviteModal {
  import opened Options
  import opened Text

  const MsgInvalid: string := "Please enter a valid email address."

  /** `s[i..j]` is a non-empty run of non-space characters: a match of `\S+`. */
  predicate RunAt(s: string, i: int, j: int) {
    0 <= i < j <= |s| && NoSpace(s[i..j])
  }

  /** `\S+@\S+\.\S+` matches `s[i..l]`, with the '@' at `j` and the '.' at `k`. */
  predicate Window(s: string, i: int, j: int, k: int, l: int) {
    RunAt(s, i, j) && j < |s| && s[j] == '@' && RunAt(s, j + 1, k) && k < |s| && s[k] == '.' && RunAt(s, k + 1, l)
  }

  /** `/\S+@\S+\.\S+/.test(s)` as the regular expression reads: somewhere in `s`, a run of
      non-space characters, '@', another run, '.', and a third run. The pattern has no
      anchors, so text around the match is not looked at. */
  ghost predicate PatternMatch(s: string) {
    exists i, j, k, l :: Window(s, i, j, k, l)
  }

  /** The window with each outer run cut down to the one character next to the '@' and
      the '.'. */
  predicate AtDot(s: string, j: int, k: int) {
    0 < j && j + 1 < k && k + 1 < |s|
    && !IsSpace(s[j - 1]) && s[j] == '@' && NoSpace(s[j + 1..k]) && s[k] == '.' && !IsSpace(s[k + 1])
  }

  /** The test the dialog makes, by way of the cut-down window. */
  predicate LooksLikeEmail(s: string) {
    exists j, k :: 0 < j < |s| && j < k < |s| && AtDot(s, j, k)
  }

  lemma AtDotIsWindow(s: string, j: int, k: int)
    requires AtDot(s, j, k)
    ensures Window(s, j - 1, j, k, k + 2)
  {
    assert s[j - 1..j] == [s[j - 1]];
    assert s[k + 1..k + 2] == [s[k + 1]];
  }

  lemma WindowHasAtDot(s: string, i: int, j: int, k: int, l: int)
    requires Window(s, i, j, k, l)
    ensures AtDot(s, j, k)
  {
    assert s[i..j][j - 1 - i] == s[j - 1];
    assert s[k + 1..l][0] == s[k + 1];
  }

  /** The cut-down test decides exactly the regular expression's test. */
  lemma LooksLikeEmailIffPattern(s: string)
    ensures LooksLikeEmail(s) <==> PatternMatch(s)
  {
    if LooksLikeEmail(s) {
      var j, k :| 0 < j < |s| && j < k < |s| && AtDot(s, j, k);
      AtDotIsWindow(s, j, k);
    }
    if PatternMatch(s) {
      var i, j, k, l :| Window(s, i, j, k, l);
      WindowHasAtDot(s, i, j, k, l);
    }
  }

  /** Text before or after an acceptable address, white space included, does not make it
      unacceptable: the address is neither anchored nor trimmed. */
  lemma SurroundedStillLooksLikeEmail(a: string, s: string, b: string)
    requires LooksLikeEmail(s)
    ensures LooksLikeEmail(a + s + b)
  {
    var j, k :| 0 < j < |s| && j < k < |s| && AtDot(s, j, k);
    var t := a + s + b;
    var n := |a|;
    assert t[n + j + 1..n + k] == s[j + 1..k];
    assert t[n + j - 1] == s[j - 1] && t[n + j] == s[j] && t[n + k] == s[k] && t[n + k + 1] == s[k + 1];
    assert AtDot(t, n + j, n + k);
  }

  /** An address without '@' never passes. */
  lemma NoAtRejected(s: string)
    requires '@' !in s
    ensures !LooksLikeEmail(s)
  {
  }

  /** The dialog's state: the typed address and the error under the field. */
  class InviteForm {
    var email: string
    var error: string

    constructor ()
      ensures email == "" && error == ""
    {
      email, error := "", "";
    }

    /** The field's `onChange`: the address is replaced and a shown error is cleared. */
    method Type(text: string)
      modifies this
      ensures email == text && error == ""
    {
      email := text;
      if error != "" {
        error := "";
      }
    }

    /** `handleClose`. */
    method Close()
      modifies this
      ensures email == "" && error == ""
    {
      email := "";
      error := "";
    }

    /** `handleSendInvite`: an empty or malformed address shows the error and nothing is
        sent; otherwise the address, exactly as typed, goes to `onInvite` and the dialog
        is cleared and closed. */
    method SendInvite() returns (invited: Option<string>)
      modifies this
      ensures old(email) == "" || !LooksLikeEmail(old(email)) ==>
        invited.None? && email == old(email) && error == MsgInvalid
      ensures old(email) != "" && LooksLikeEmail(old(email)) ==>
        invited == Some(old(email)) && email == "" && error == ""
    {
      if email == "" || !LooksLikeEmail(email) {
        error := MsgInvalid;
        return None;
      }
      invited := Some(email);
      Close();
    }
  }
}
