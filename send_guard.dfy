/**
 * The guard of the operator's send action and the insert it issues.
 * `message.trim()` follows JavaScript's String.prototype.trim, which removes
 * the characters of ECMAScript's WhiteSpace and LineTerminator productions
 * (sections 12.2 and 12.3 of ECMA-262) from both ends.
 */
module SendGuard {
  import opened Wrappers
  import opened ChatTypes

  /** The ECMAScript WhiteSpace and LineTerminator code points. */
  predicate IsJsWhitespace(c: char)
  {
    var n := c as int;
    || n == 0x09 || n == 0x0A || n == 0x0B || n == 0x0C || n == 0x0D || n == 0x20
    || n == 0xA0 || n == 0x1680 || (0x2000 <= n <= 0x200A) || n == 0x2028 || n == 0x2029
    || n == 0x202F || n == 0x205F || n == 0x3000 || n == 0xFEFF
  }

  predicate AllWhitespace(s: string)
  {
    forall i :: 0 <= i < |s| ==> IsJsWhitespace(s[i])
  }

  /** Drops leading whitespace: the result is a suffix that starts with a non-whitespace character, if any. */
  function TrimStart(s: string): (r: string)
    ensures exists k :: 0 <= k <= |s| && r == s[k..] && AllWhitespace(s[..k])
    ensures r != [] ==> !IsJsWhitespace(r[0])
    decreases |s|
  {
    if s != [] && IsJsWhitespace(s[0]) then
      var r := TrimStart(s[1..]);
      ghost var k :| 0 <= k <= |s[1..]| && r == s[1..][k..] && AllWhitespace(s[1..][..k]);
      WhitespaceHeadPrefix(s, k);
      assert 0 <= k + 1 <= |s| && r == s[k + 1..] && AllWhitespace(s[..k + 1]);
      r
    else
      assert s == s[0..] && s[..0] == [];
      s
  }

  /** Drops trailing whitespace: the result is a prefix that ends with a non-whitespace character, if any. */
  function TrimEnd(s: string): (r: string)
    ensures exists k :: 0 <= k <= |s| && r == s[..k] && AllWhitespace(s[k..])
    ensures r != [] ==> !IsJsWhitespace(r[|r| - 1])
    decreases |s|
  {
    if s != [] && IsJsWhitespace(s[|s| - 1]) then
      var init := s[..|s| - 1];
      var r := TrimEnd(init);
      ghost var k :| 0 <= k <= |init| && r == init[..k] && AllWhitespace(init[k..]);
      PrefixOfPrefix(s, |s| - 1, k);
      assert s[|s| - 1..] == [s[|s| - 1]];
      r
    else
      assert s == s[..|s|] && s[|s|..] == [];
      s
  }

  /**
   * `s.trim()`: the slice left after removing a whitespace prefix and a
   * whitespace suffix, neither end of which is whitespace.
   */
  function Trim(s: string): (r: string)
    ensures exists a, b :: 0 <= a <= b <= |s| && r == s[a..b] && AllWhitespace(s[..a]) && AllWhitespace(s[b..])
    ensures r != [] ==> !IsJsWhitespace(r[0]) && !IsJsWhitespace(r[|r| - 1])
  {
    TrimIsSlice(s);
    TrimEnd(TrimStart(s))
  }

  /** Trimming both ends leaves a slice between two all-whitespace pieces. */
  lemma TrimIsSlice(s: string)
    ensures exists a, b :: 0 <= a <= b <= |s| && TrimEnd(TrimStart(s)) == s[a..b] &&
                           AllWhitespace(s[..a]) && AllWhitespace(s[b..])
    ensures TrimEnd(TrimStart(s)) != [] ==> !IsJsWhitespace(TrimEnd(TrimStart(s))[0])
  {
    var t := TrimStart(s);
    var a :| 0 <= a <= |s| && t == s[a..] && AllWhitespace(s[..a]);
    var r := TrimEnd(t);
    var k :| 0 <= k <= |t| && r == t[..k] && AllWhitespace(t[k..]);
    SliceOfSuffix(s, a, k);
    if r != [] {
      assert r[0] == t[0];
    }
  }

  /** Slicing a prefix is slicing the original; the original's tail is the prefix's tail and the rest. */
  lemma PrefixOfPrefix(s: string, n: nat, k: nat)
    requires k <= n <= |s|
    ensures s[..n][..k] == s[..k] && s[k..] == s[..n][k..] + s[n..]
  {
  }

  /** A whitespace head followed by a whitespace prefix of the tail is a whitespace prefix. */
  lemma WhitespaceHeadPrefix(s: string, k: nat)
    requires k < |s| && IsJsWhitespace(s[0]) && AllWhitespace(s[1..][..k])
    ensures AllWhitespace(s[..k + 1]) && s[1..][k..] == s[k + 1..]
  {
    assert s[..k + 1] == [s[0]] + s[1..][..k];
  }

  /** Slicing a suffix is slicing the original at shifted bounds. */
  lemma SliceOfSuffix(s: string, a: nat, k: nat)
    requires a + k <= |s|
    ensures s[a..][k..] == s[a + k..] && s[a..][..k] == s[a..a + k]
  {
  }

  /** The trimmed text is empty exactly when every character of the text is whitespace. */
  lemma TrimEmptyIff(s: string)
    ensures Trim(s) == [] <==> AllWhitespace(s)
  {
  }

  /** `selectedSession && message.trim()`: a session is selected and the text has a visible character. */
  function CanSend(selected: Option<string>, text: string): (ok: bool)
    ensures ok <==> HasSelection(selected) && exists i :: 0 <= i < |text| && !IsJsWhitespace(text[i])
  {
    TrimEmptyIff(text);
    HasSelection(selected) && Trim(text) != []
  }

  /** The row the send action writes to the message table. */
  datatype InsertRequest = InsertRequest(sessionId: string, content: string, senderType: SenderType)

  /**
   * The send action's decision: no insert when the guard refuses; otherwise an
   * insert for the selected session, carrying the text exactly as typed
   * (untrimmed) and always sent as the business.
   */
  function PlanSend(selected: Option<string>, text: string): (r: Option<InsertRequest>)
    ensures r.None? <==> !HasSelection(selected) || AllWhitespace(text)
    ensures r.Some? ==> selected.Some? && r.value.sessionId == selected.value && r.value.sessionId != ""
    ensures r.Some? ==> r.value.content == text && r.value.senderType == Business
  {
    if CanSend(selected, text) then Some(InsertRequest(selected.value, text, Business)) else None
  }
}
