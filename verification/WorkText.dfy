/** Bounded, trimmed text (src/conversation-work.js:362-369). */
module WorkText {
  import opened Wrappers

  // The characters that trimming removes: ECMAScript white space and line terminators.
  predicate IsSpace(c: char) {
    || c == '\t' || c == '\n' || c == '\U{0B}' || c == '\U{0C}' || c == '\r' || c == ' '
    || c == '\U{A0}' || c == '\U{1680}' || ('\U{2000}' <= c <= '\U{200A}')
    || c == '\U{2028}' || c == '\U{2029}' || c == '\U{202F}' || c == '\U{205F}' || c == '\U{3000}' || c == '\U{FEFF}'
  }

  function TrimStart(s: string): string {
    if s != "" && IsSpace(s[0]) then TrimStart(s[1..]) else s
  }

  function TrimEnd(s: string): string {
    if s != "" && IsSpace(s[|s| - 1]) then TrimEnd(s[..|s| - 1]) else s
  }

  function Trim(s: string): string {
    TrimEnd(TrimStart(s))
  }

  function BoundedText(value: Option<string>, maximum: nat): Option<string> {
    if value.None? || |Trim(value.value)| < 1 || |value.value| > maximum then None else Some(Trim(value.value))
  }

  // Text in the form that BoundedText returns.
  predicate Clean(s: string, maximum: nat) {
    1 <= |s| <= maximum && !IsSpace(s[0]) && !IsSpace(s[|s| - 1])
  }

  lemma {:induction false} TrimStartResult(s: string)
    ensures |TrimStart(s)| <= |s|
    ensures TrimStart(s) != "" ==> !IsSpace(TrimStart(s)[0])
  {
    if s != "" && IsSpace(s[0]) {
      TrimStartResult(s[1..]);
    }
  }

  lemma {:induction false} TrimEndResult(s: string)
    ensures TrimEnd(s) <= s
    ensures TrimEnd(s) != "" ==> !IsSpace(TrimEnd(s)[|TrimEnd(s)| - 1])
  {
    if s != "" && IsSpace(s[|s| - 1]) {
      TrimEndResult(s[..|s| - 1]);
    }
  }

  /** What BoundedText accepts is clean, and clean text goes through it unchanged. */
  lemma BoundedTextIsClean(value: Option<string>, maximum: nat)
    ensures BoundedText(value, maximum).Some? ==> Clean(BoundedText(value, maximum).value, maximum)
  {
    if value.Some? {
      TrimStartResult(value.value);
      TrimEndResult(TrimStart(value.value));
    }
  }

  lemma CleanIsUnchanged(s: string, maximum: nat)
    requires Clean(s, maximum)
    ensures BoundedText(Some(s), maximum) == Some(s)
  {
  }

  /** What is accepted is exactly what is within its bound and not all white space, less the white space around it. */

  predicate AllSpace(s: string) {
    forall k :: 0 <= k < |s| ==> IsSpace(s[k])
  }

  // The part of a text between the white space before and behind it.
  ghost predicate IsCore(text: string, core: string) {
    exists i, j :: IsCoreAt(text, core, i, j)
  }

  ghost predicate IsCoreAt(text: string, core: string, i: int, j: int) {
    0 <= i < j <= |text| && core == text[i..j] && AllSpace(text[..i]) && AllSpace(text[j..])
    && !IsSpace(text[i]) && !IsSpace(text[j - 1])
  }

  predicate Fits(value: Option<string>, maximum: nat) {
    value.Some? && |value.value| <= maximum && !AllSpace(value.value)
  }

  lemma {:induction false} TrimStartSkips(s: string) returns (i: nat)
    ensures i <= |s| && TrimStart(s) == s[i..] && AllSpace(s[..i]) && (i < |s| ==> !IsSpace(s[i]))
  {
    i := 0;
    if s != "" && IsSpace(s[0]) {
      var n := TrimStartSkips(s[1..]);
      i := n + 1;
      assert s[1..][n..] == s[i..];
      assert forall k :: 0 < k < i ==> s[k] == s[1..][..n][k - 1];
    }
  }

  lemma {:induction false} TrimEndSkips(s: string) returns (j: nat)
    ensures j <= |s| && TrimEnd(s) == s[..j] && AllSpace(s[j..]) && (j > 0 ==> !IsSpace(s[j - 1]))
  {
    j := |s|;
    if s != "" && IsSpace(s[|s| - 1]) {
      var init := s[..|s| - 1];
      j := TrimEndSkips(init);
      assert init[..j] == s[..j];
      forall k | j <= k < |s|
        ensures IsSpace(s[k])
      {
        assert k < |s| - 1 ==> s[k] == init[j..][k - j];
      }
    }
  }

  lemma TrimIsCore(s: string)
    ensures if AllSpace(s) then Trim(s) == "" else IsCore(s, Trim(s)) && Trim(s) != ""
  {
    var i := TrimStartSkips(s);
    var rest := s[i..];
    var j := TrimEndSkips(rest);
    assert rest[..j] == s[i..i + j] && rest[j..] == s[i + j..];
    assert forall k :: 0 <= k < i ==> s[..i][k] == s[k];
    if i < |s| {
      assert rest[0] == s[i];
      assert !AllSpace(rest) && rest[0..] == rest && j > 0;
      assert rest[j - 1] == s[i + j - 1];
      assert IsCoreAt(s, Trim(s), i, i + j);
    }
  }

  lemma BoundedTextExact(value: Option<string>, maximum: nat)
    ensures BoundedText(value, maximum).Some? <==> Fits(value, maximum)
    ensures BoundedText(value, maximum).Some? ==> value.Some? && IsCore(value.value, BoundedText(value, maximum).value)
  {
    if value.Some? {
      TrimIsCore(value.value);
    }
    hide Trim, AllSpace, IsCore;
  }
}
