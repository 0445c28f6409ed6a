/** The submit guard of components/Onboarding.tsx: the description is accepted only when it
    is not empty once JavaScript's `String.prototype.trim` has removed its surrounding white
    space. */
module Onboarding {
  import opened Wrappers

  /** The characters `trim` removes: ECMAScript WhiteSpace and LineTerminator. */
  predicate IsTrimmable(c: char)
  {
    || c == '\t' || c == '\n' || c == '\U{000B}' || c == '\U{000C}' || c == '\r' || c == ' '
    || c == '\U{00A0}' || c == '\U{1680}' || ('\U{2000}' <= c <= '\U{200A}')
    || c == '\U{2028}' || c == '\U{2029}' || c == '\U{202F}' || c == '\U{205F}'
    || c == '\U{3000}' || c == '\U{FEFF}'
  }

  function TrimStart(s: string): string
  {
    if s != [] && IsTrimmable(s[0]) then TrimStart(s[1..]) else s
  }

  function TrimEnd(s: string): string
  {
    if s != [] && IsTrimmable(s[|s| - 1]) then TrimEnd(s[..|s| - 1]) else s
  }

  /** `desc.trim()`. */
  function Trim(s: string): string
  {
    TrimEnd(TrimStart(s))
  }

  ghost predicate AllTrimmable(s: string)
  {
    forall i :: 0 <= i < |s| ==> IsTrimmable(s[i])
  }

  /** TrimStart drops a prefix, keeps the rest, and stops at a character trim keeps. */
  lemma {:induction false} TrimStartShape(s: string)
    ensures var t := TrimStart(s);
            && |t| <= |s| && t == s[|s| - |t|..]
            && AllTrimmable(s[..|s| - |t|])
            && (t != [] ==> !IsTrimmable(t[0]))
  {
    if s != [] && IsTrimmable(s[0]) {
      TrimStartShape(s[1..]);
      var t := TrimStart(s[1..]);
      assert s[1..][|s| - 1 - |t|..] == s[|s| - |t|..];
      var dropped := s[..|s| - |t|];
      forall i | 0 <= i < |dropped| ensures IsTrimmable(dropped[i]) {
        if i > 0 { assert dropped[i] == s[1..][..|s| - 1 - |t|][i - 1]; }
      }
    }
  }

  /** TrimEnd drops a suffix, keeps the rest, and stops at a character trim keeps. */
  lemma {:induction false} TrimEndShape(s: string)
    ensures var t := TrimEnd(s);
            && |t| <= |s| && t == s[..|t|]
            && AllTrimmable(s[|t|..])
            && (t != [] ==> !IsTrimmable(t[|t| - 1]))
  {
    if s != [] && IsTrimmable(s[|s| - 1]) {
      var p := s[..|s| - 1];
      TrimEndShape(p);
      var t := TrimEnd(p);
      assert p[..|t|] == s[..|t|];
      forall i | |t| <= i < |s| ensures IsTrimmable(s[i]) {
        if i < |s| - 1 { assert s[i] == p[|t|..][i - |t|]; }
      }
      assert forall j :: 0 <= j < |s[|t|..]| ==> s[|t|..][j] == s[|t| + j];
    }
  }

  /** The trimmed string is empty exactly when every character is white space. */
  lemma TrimEmptyIffAllTrimmable(s: string)
    ensures Trim(s) == [] <==> AllTrimmable(s)
  {
    TrimStartShape(s);
    var t := TrimStart(s);
    TrimEndShape(t);
    if Trim(s) == [] {
      assert t[|TrimEnd(t)|..] == t;
      forall i | 0 <= i < |s| ensures IsTrimmable(s[i]) {
        assert s[i] == s[..|s| - |t|][i];
      }
    } else {
      var i := |s| - |t|;
      assert !IsTrimmable(s[i]);
    }
  }

  /** The submit guard `desc.trim().length > 0`. */
  predicate CanSubmit(desc: string)
  {
    |Trim(desc)| > 0
  }

  /** The guard accepts exactly a description with some character that is not white space. */
  lemma CanSubmitIffVisibleChar(desc: string)
    ensures CanSubmit(desc) <==> exists i :: 0 <= i < |desc| && !IsTrimmable(desc[i])
  {
    TrimEmptyIffAllTrimmable(desc);
  }

  /** The submit button's `disabled={!desc.trim()}`: the empty string is falsy. */
  predicate SubmitDisabled(desc: string)
  {
    Trim(desc) == ""
  }

  /** The button is disabled exactly when the submit guard would reject. */
  lemma DisabledIffRejected(desc: string)
    ensures SubmitDisabled(desc) <==> !CanSubmit(desc)
  {
  }

  /** What one `handleSubmit` does: the default submission is always prevented, and
      `onComplete` is called at most once, with the untrimmed description. */
  datatype SubmitEffect = SubmitEffect(defaultPrevented: bool, completedWith: Option<string>)

  function HandleSubmit(desc: string): (e: SubmitEffect)
    ensures e.defaultPrevented
    ensures e.completedWith.Some? <==> (exists i :: 0 <= i < |desc| && !IsTrimmable(desc[i]))
    ensures e.completedWith.Some? ==> e.completedWith.value == desc
  {
    CanSubmitIffVisibleChar(desc);
    SubmitEffect(true, if CanSubmit(desc) then Some(desc) else None)
  }

  /** A white-space-only description never completes onboarding. */
  lemma BlankNeverCompletes(desc: string)
    requires AllTrimmable(desc)
    ensures HandleSubmit(desc).completedWith == None
  {
    TrimEmptyIffAllTrimmable(desc);
  }
}
