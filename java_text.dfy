/**
 * The two java.lang.String operations of the controller: trim(), applied to
 * every line it reads with nextLine, and toLowerCase(), applied to the delete
 * confirmation line.
 */
module JavaText {

  /** trim() drops, from either end, every character whose code is at most U+0020. */
  predicate IsTrimmable(c: char) {
    c <= ' '
  }

  /** A line that trims to the empty string: what the update flow calls a blank input. */
  predicate IsBlank(s: string) {
    forall i :: 0 <= i < |s| ==> IsTrimmable(s[i])
  }

  /** How many characters trim() removes from the front of s. */
  function LeadingCount(s: string): (n: nat)
    ensures n <= |s|
    ensures forall i :: 0 <= i < n ==> IsTrimmable(s[i])
    ensures n < |s| ==> !IsTrimmable(s[n])
  {
    if |s| == 0 || !IsTrimmable(s[0]) then 0 else 1 + LeadingCount(s[1..])
  }

  /** How many characters trim() removes from the back of s. */
  function TrailingCount(s: string): (n: nat)
    ensures n <= |s|
    ensures forall i :: |s| - n <= i < |s| ==> IsTrimmable(s[i])
    ensures n < |s| ==> !IsTrimmable(s[|s| - 1 - n])
  {
    if |s| == 0 || !IsTrimmable(s[|s| - 1]) then 0 else 1 + TrailingCount(s[..|s| - 1])
  }

  /**
   * String.trim(): the longest infix of s that neither starts nor ends with a
   * trimmable character, found by dropping trimmable characters from the front
   * and then from the back.
   */
  function Trim(s: string): (r: string)
    ensures |r| <= |s|
    ensures r == "" <==> IsBlank(s)
    ensures r != "" ==> !IsTrimmable(r[0]) && !IsTrimmable(r[|r| - 1])
  {
    var front := LeadingCount(s);
    var t := s[front..];
    var r := t[..|t| - TrailingCount(t)];
    assert r != "" ==> r[0] == s[front];
    r
  }

  /** The characters trim() drops from the front are trimmable. */
  lemma LeadingIsBlank(s: string)
    ensures IsBlank(s[..LeadingCount(s)])
  {
    var front := LeadingCount(s);
    forall i | 0 <= i < front ensures IsTrimmable(s[..front][i]) {
    }
  }

  /** The characters trim() drops from the back are trimmable. */
  lemma TrailingIsBlank(t: string)
    ensures IsBlank(t[|t| - TrailingCount(t)..])
  {
    var n := TrailingCount(t);
    var tail := t[|t| - n..];
    forall i | 0 <= i < |tail| ensures IsTrimmable(tail[i]) {
      assert tail[i] == t[|t| - n + i];
    }
  }

  /** trim() keeps the characters that follow the ones it drops from the front. */
  lemma TrimIsSlice(s: string)
    ensures LeadingCount(s) + |Trim(s)| <= |s|
    ensures Trim(s) == s[LeadingCount(s)..LeadingCount(s) + |Trim(s)|]
  {
    var front := LeadingCount(s);
    var t := s[front..];
    var r := t[..|t| - TrailingCount(t)];
    assert Trim(s) == r;
    assert r == s[front..front + |r|];
  }

  /** What follows the trimmed text is what trim() drops from the back. */
  lemma TrimDropsTrailing(s: string)
    ensures LeadingCount(s) + |Trim(s)| <= |s|
    ensures IsBlank(s[LeadingCount(s) + |Trim(s)|..])
  {
    var front := LeadingCount(s);
    var t := s[front..];
    var n := TrailingCount(t);
    assert |Trim(s)| == |t| - n;
    TrailingIsBlank(t);
    assert s[front + |t| - n..] == t[|t| - n..];
  }

  /** What trim() removes: only trimmable characters, and only at the two ends. */
  lemma TrimIsInfix(s: string)
    ensures LeadingCount(s) + |Trim(s)| <= |s|
    ensures Trim(s) == s[LeadingCount(s)..LeadingCount(s) + |Trim(s)|]
    ensures IsBlank(s[..LeadingCount(s)]) && IsBlank(s[LeadingCount(s) + |Trim(s)|..])
  {
    LeadingIsBlank(s);
    TrimIsSlice(s);
    TrimDropsTrailing(s);
  }

  /** A string with no trimmable character at either end is its own trim. */
  lemma TrimOfTrimmed(s: string)
    requires s == "" || (!IsTrimmable(s[0]) && !IsTrimmable(s[|s| - 1]))
    ensures Trim(s) == s
  {
    assert LeadingCount(s) == 0;
    assert TrailingCount(s) == 0;
  }

  /** trim() is idempotent. */
  lemma TrimIdempotent(s: string)
    ensures Trim(Trim(s)) == Trim(s)
  {
    TrimOfTrimmed(Trim(s));
  }

  /** Character.toLowerCase restricted to ASCII: 'A'..'Z' become 'a'..'z'. */
  function LowerChar(c: char): (d: char)
    ensures 'A' <= c <= 'Z' ==> 'a' <= d <= 'z' && d as int - c as int == 32
    ensures !('A' <= c <= 'Z') ==> d == c
  {
    if 'A' <= c <= 'Z' then (c as int + 32) as char else c
  }

  /** String.toLowerCase, character by character, on the ASCII letters. */
  function ToLower(s: string): (r: string)
    ensures |r| == |s|
    ensures forall i :: 0 <= i < |s| ==> r[i] == LowerChar(s[i])
  {
    seq(|s|, i requires 0 <= i < |s| => LowerChar(s[i]))
  }

  /** The only strings that lower-case to "y" are "y" and "Y". */
  lemma LowerIsY(s: string)
    ensures ToLower(s) == "y" <==> s == "y" || s == "Y"
  {
    if ToLower(s) == "y" {
      assert |s| == 1 && LowerChar(s[0]) == 'y';
      assert s == [s[0]];
    }
    if s == "Y" || s == "y" {
      assert ToLower(s)[0] == 'y';
    }
  }
}
