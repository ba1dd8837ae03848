/**
 Pieces of Go's strings package, in two readings of a Go string: as the bytes of its UTF-8 form,
 one character below 256 each, and as the characters themselves.
 */
module GoStrings {

  // ----- Strings of bytes

  /** The n characters from i on are the UTF-8 form of one character with Unicode's White_Space property. */
  predicate SpaceAt(s: string, i: nat, n: nat) {
    && i + n <= |s|
    && (n == 1 ==> '\t' <= s[i] <= '\r' || s[i] == ' ')
    && (n == 2 ==> s[i] == '\U{C2}' && (s[i + 1] == '\U{85}' || s[i + 1] == '\U{A0}'))
    && (n == 3 ==>
          || (s[i] == '\U{E1}' && s[i + 1] == '\U{9A}' && s[i + 2] == '\U{80}')
          || (s[i] == '\U{E2}' && s[i + 1] == '\U{80}' &&
              ('\U{80}' <= s[i + 2] <= '\U{8A}' || s[i + 2] == '\U{A8}' || s[i + 2] == '\U{A9}' || s[i + 2] == '\U{AF}'))
          || (s[i] == '\U{E2}' && s[i + 1] == '\U{81}' && s[i + 2] == '\U{9F}')
          || (s[i] == '\U{E3}' && s[i + 1] == '\U{80}' && s[i + 2] == '\U{80}'))
    && 1 <= n <= 3
  }

  /** The length of the white-space character at i that ends by j, or 0. */
  function SpaceFrom(s: string, i: nat, j: nat): (n: nat)
    ensures n > 0 ==> i + n <= j && SpaceAt(s, i, n)
  {
    if i + 1 <= j && SpaceAt(s, i, 1) then 1
    else if i + 2 <= j && SpaceAt(s, i, 2) then 2
    else if i + 3 <= j && SpaceAt(s, i, 3) then 3
    else 0
  }

  /** The length of the white-space character that ends at j and starts at i or later, or 0. */
  function SpaceBefore(s: string, i: nat, j: nat): (n: nat)
    ensures n > 0 ==> i + n <= j && SpaceAt(s, j - n, n)
  {
    if i + 1 <= j && SpaceAt(s, j - 1, 1) then 1
    else if i + 2 <= j && SpaceAt(s, j - 2, 2) then 2
    else if i + 3 <= j && SpaceAt(s, j - 3, 3) then 3
    else 0
  }

  function SkipLeft(s: string, i: nat): (k: nat)
    requires i <= |s|
    ensures i <= k <= |s|
    decreases |s| - i
  {
    var n := SpaceFrom(s, i, |s|);
    if n == 0 then i else SkipLeft(s, i + n)
  }

  function SkipRight(s: string, i: nat, j: nat): (k: nat)
    requires i <= j <= |s|
    ensures i <= k <= j
    decreases j
  {
    var n := SpaceBefore(s, i, j);
    if n == 0 then j else SkipRight(s, i, j - n)
  }

  function TrimSpace(s: string): string {
    var i := SkipLeft(s, 0);
    s[i..SkipRight(s, i, |s|)]
  }

  /** From i to j there are only white-space characters. */
  predicate Blank(s: string, i: nat, j: nat)
    requires i <= j
    decreases j - i
  {
    i == j || (SpaceFrom(s, i, j) > 0 && Blank(s, i + SpaceFrom(s, i, j), j))
  }

  /** No white-space character starts with another one. */
  lemma SpaceFromLength(s: string, i: nat, n: nat, j: nat)
    requires SpaceAt(s, i, n) && i + n <= j
    ensures SpaceFrom(s, i, j) == n
  {
  }

  lemma {:induction false} BlankExtends(s: string, i: nat, m: nat, n: nat)
    requires i <= m && Blank(s, i, m) && SpaceAt(s, m, n)
    ensures Blank(s, i, m + n)
    decreases m - i
  {
    if i == m {
      SpaceFromLength(s, m, n, m + n);
    } else {
      var k := SpaceFrom(s, i, m);
      SpaceFromLength(s, i, k, m + n);
      BlankExtends(s, i + k, m, n);
    }
  }

  lemma {:induction false} SkippedLeft(s: string, i: nat)
    requires i <= |s|
    ensures Blank(s, i, SkipLeft(s, i)) && SpaceFrom(s, SkipLeft(s, i), |s|) == 0
    decreases |s| - i
  {
    var n := SpaceFrom(s, i, |s|);
    if n > 0 {
      SkippedLeft(s, i + n);
      SpaceFromLength(s, i, n, SkipLeft(s, i));
    }
  }

  lemma {:induction false} SkippedRight(s: string, i: nat, j: nat)
    requires i <= j <= |s|
    ensures Blank(s, SkipRight(s, i, j), j) && SpaceBefore(s, i, SkipRight(s, i, j)) == 0
    decreases j
  {
    var n := SpaceBefore(s, i, j);
    if n > 0 {
      var k := SkipRight(s, i, j - n);
      SkippedRight(s, i, j - n);
      assert SkipRight(s, i, j) == k;
      BlankExtends(s, k, j - n, n);
    }
  }

  /** Trimming cuts off white space on both sides and leaves none at either edge. */
  lemma TrimSpaceCuts(s: string) returns (i: nat, j: nat)
    ensures i <= j <= |s| && TrimSpace(s) == s[i..j]
    ensures Blank(s, 0, i) && Blank(s, j, |s|)
    ensures SpaceFrom(s, i, j) == 0 && SpaceBefore(s, i, j) == 0
  {
    i := SkipLeft(s, 0);
    j := SkipRight(s, i, |s|);
    SkippedLeft(s, 0);
    SkippedRight(s, i, |s|);
  }

  // ----- Strings of characters

  /** Unicode's White_Space property. */
  predicate IsSpace(c: char) {
    || '\t' <= c <= '\r' || c == ' ' || c == '\U{85}' || c == '\U{A0}' || c == '\U{1680}'
    || '\U{2000}' <= c <= '\U{200A}' || c == '\U{2028}' || c == '\U{2029}' || c == '\U{202F}'
    || c == '\U{205F}' || c == '\U{3000}'
  }

  /** strings.TrimFunc. */
  function Trim(s: string, cut: char -> bool): string
    decreases |s|
  {
    if s != "" && cut(s[0]) then Trim(s[1..], cut)
    else if s != "" && cut(s[|s| - 1]) then Trim(s[..|s| - 1], cut)
    else s
  }

  /** Trimming cuts off such characters on both sides and leaves none at either edge. */
  lemma {:induction false} TrimCuts(s: string, cut: char -> bool) returns (i: nat, j: nat)
    ensures i <= j <= |s| && Trim(s, cut) == s[i..j]
    ensures forall k :: 0 <= k < i || j <= k < |s| ==> cut(s[k])
    ensures i < j ==> !cut(s[i]) && !cut(s[j - 1])
    decreases |s|
  {
    if s != "" && cut(s[0]) {
      var a, b := TrimCuts(s[1..], cut);
      i, j := a + 1, b + 1;
      assert Trim(s, cut) == s[1..][a..b] == s[i..j];
      forall k | 0 <= k < i || j <= k < |s| ensures cut(s[k]) {
        assert k > 0 ==> s[k] == s[1..][k - 1];
      }
      assert i < j ==> s[i] == s[1..][a] && s[j - 1] == s[1..][b - 1];
    } else if s != "" && cut(s[|s| - 1]) {
      var n := |s| - 1;
      i, j := TrimCuts(s[..n], cut);
      assert Trim(s, cut) == s[..n][i..j] == s[i..j];
      forall k | 0 <= k < i || j <= k < |s| ensures cut(s[k]) {
        assert k < n ==> s[k] == s[..n][k];
      }
    } else {
      i, j := 0, |s|;
    }
  }

  lemma TrimTwice(s: string, cut: char -> bool)
    ensures Trim(Trim(s, cut), cut) == Trim(s, cut)
  {
    var i, j := TrimCuts(s, cut);
  }

  /** strings.TrimSpace of a string of characters. */
  function TrimText(s: string): string { Trim(s, IsSpace) }

  /** Lower-casing, exact for comparison with ASCII words: the two non-ASCII characters that lower to ASCII are included. */
  function LowerChar(c: char): char {
    if 'A' <= c <= 'Z' then c - 'A' + 'a'
    else if c == '\U{0130}' then 'i'
    else if c == '\U{212A}' then 'k'
    else c
  }

  function ToLower(s: string): string {
    seq(|s|, i requires 0 <= i < |s| => LowerChar(s[i]))
  }
}
