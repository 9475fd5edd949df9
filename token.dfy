/**
 * The token check of OCRViewModel.currentToken: the stored token trimmed of
 * white space and line breaks, or nothing when that leaves it empty.
 */
module Token {
  import opened Wrappers

  /**
   * The characters of Foundation's whitespacesAndNewlines set: the Unicode
   * space separators, the line and paragraph separators, tab, the line
   * breaks U+000A to U+000D and NEXT LINE (U+0085).
   */
  predicate IsSpace(c: char) {
    var cp := c as int;
    || (0x09 <= cp <= 0x0D) || cp == 0x20 || cp == 0x85 || cp == 0xA0 || cp == 0x1680
    || (0x2000 <= cp <= 0x200A) || cp == 0x2028 || cp == 0x2029 || cp == 0x202F || cp == 0x205F || cp == 0x3000
  }

  predicate AllSpace(s: string) {
    forall k :: 0 <= k < |s| ==> IsSpace(s[k])
  }

  /** s without its leading spaces: a suffix of s, preceded only by spaces, starting with a non-space. */
  function TrimStart(s: string): (r: string)
    ensures |r| <= |s| && r == s[|s| - |r|..]
    ensures AllSpace(s[..|s| - |r|])
    ensures r != [] ==> !IsSpace(r[0])
  {
    if s == [] || !IsSpace(s[0]) then s
    else
      var r := TrimStart(s[1..]);
      assert s[..|s| - |r|] == [s[0]] + s[1..][..|s| - 1 - |r|];
      r
  }

  /** s without its trailing spaces: a prefix of s, followed only by spaces, ending with a non-space. */
  function TrimEnd(s: string): (r: string)
    ensures |r| <= |s| && r == s[..|r|]
    ensures AllSpace(s[|r|..])
    ensures r != [] ==> !IsSpace(r[|r| - 1])
  {
    if s == [] || !IsSpace(s[|s| - 1]) then s
    else
      var r := TrimEnd(s[..|s| - 1]);
      assert s[|r|..] == s[..|s| - 1][|r|..] + [s[|s| - 1]];
      r
  }

  /** trimmingCharacters(in: .whitespacesAndNewlines). */
  function Trim(s: string): string {
    TrimEnd(TrimStart(s))
  }

  /** The token to send, or None when there is nothing but white space. */
  function CurrentToken(token: string): (r: Option<string>)
    ensures r.None? <==> AllSpace(token)
    ensures r.Some? ==> r.value == Trim(token) && r.value != []
  {
    var t := Trim(token);
    TrimmedEmptyIffAllSpace(token);
    if t == [] then None else Some(t)
  }

  /** Trimming leaves nothing exactly when every character is white space. */
  lemma TrimmedEmptyIffAllSpace(s: string)
    ensures Trim(s) == [] <==> AllSpace(s)
  {
    if AllSpace(s) {
      TrimStartOfAllSpace(s);
    } else {
      var k :| 0 <= k < |s| && !IsSpace(s[k]);
      TrimStartReachesNonSpace(s, k);
      TrimEndKeepsNonSpaceStart(TrimStart(s));
    }
  }

  /** What trimming keeps starts and ends with a non-space. */
  lemma TrimmedEndsAreNotSpace(s: string)
    ensures Trim(s) != [] ==> !IsSpace(Trim(s)[0]) && !IsSpace(Trim(s)[|Trim(s)| - 1])
  {
    var a := TrimStart(s);
    var t := TrimEnd(a);
    if t != [] {
      assert t[0] == a[0];
    }
  }

  lemma {:induction false} TrimStartOfAllSpace(s: string)
    requires AllSpace(s)
    ensures TrimStart(s) == []
  {
    if s != [] {
      TrimStartOfAllSpace(s[1..]);
    }
  }

  lemma {:induction false} TrimStartReachesNonSpace(s: string, k: nat)
    requires k < |s| && !IsSpace(s[k])
    ensures TrimStart(s) != []
  {
    if IsSpace(s[0]) {
      TrimStartReachesNonSpace(s[1..], k - 1);
    }
  }

  lemma {:induction false} TrimEndKeepsNonSpaceStart(s: string)
    requires s != [] && !IsSpace(s[0])
    ensures TrimEnd(s) != []
  {
    if IsSpace(s[|s| - 1]) {
      TrimEndKeepsNonSpaceStart(s[..|s| - 1]);
    }
  }

  /** The trimmed token is a run of the original with only white space cut away around it. */
  lemma TrimIsInnerRun(s: string)
    ensures exists i, j :: 0 <= i <= j <= |s| && Trim(s) == s[i..j] && AllSpace(s[..i]) && AllSpace(s[j..])
  {
    var a := TrimStart(s);
    var t := TrimEnd(a);
    var i := |s| - |a|;
    var j := i + |t|;
    assert s[i..j] == a[..|t|];
    assert s[j..] == a[|t|..];
  }

  /** Trimming twice trims nothing more. */
  lemma TrimIdempotent(s: string)
    ensures Trim(Trim(s)) == Trim(s)
  {
    var t := Trim(s);
    if t != [] {
      assert TrimStart(t) == t;
      assert TrimEnd(t) == t;
    }
  }
}
