/**
 The wildcard matcher (tcpport/text.go): one loop that on a mismatch goes back to the last
 star only, against the recursive meaning of the two wildcards.
 */
module Wildcard {
  import opened Bytes

  const STAR: Byte := 42
  const ANY: Byte := 63

  /** '*' stands for any run of bytes, '?' for any one byte, another byte for itself. */
  ghost predicate Matches(s: seq<Byte>, p: seq<Byte>)
    decreases |p|, |s|
  {
    if p == [] then s == []
    else if p[0] == STAR then Matches(s, p[1..]) || (s != [] && Matches(s[1..], p))
    else s != [] && One(s[0], p[0]) && Matches(s[1..], p[1..])
  }

  /** A byte against a pattern byte that is not read as a star. */
  predicate One(b: Byte, p: Byte)
  {
    b == p || p == ANY
  }

  /** A star matches whatever some suffix lets the rest of the pattern match. */
  lemma {:induction false} StarMatches(s: seq<Byte>, p: seq<Byte>)
    requires p != [] && p[0] == STAR
    ensures Matches(s, p) <==> exists k :: 0 <= k <= |s| && Matches(s[k..], p[1..])
  {
    assert s[0..] == s;
    if s != [] {
      StarMatches(s[1..], p);
      if Matches(s[1..], p) {
        var k :| 0 <= k <= |s[1..]| && Matches(s[1..][k..], p[1..]);
        assert s[1..][k..] == s[k + 1..];
      }
      if exists k :: 0 < k <= |s| && Matches(s[k..], p[1..]) {
        var k :| 0 < k <= |s| && Matches(s[k..], p[1..]);
        assert s[1..][k - 1..] == s[k..];
      }
    }
  }

  /** Pattern bytes from lo to hi without a star, matched byte by byte from s[at..] on. */
  ghost predicate Literal(s: seq<Byte>, at: nat, p: seq<Byte>, lo: nat, hi: nat)
  {
    && lo <= hi <= |p| && at + (hi - lo) <= |s|
    && forall e :: lo <= e < hi ==> p[e] != STAR && One(s[at + (e - lo)], p[e])
  }

  /** A star-free stretch of the pattern takes exactly its length from the text. */
  lemma {:induction false} StretchTakes(s: seq<Byte>, p: seq<Byte>, lo: nat, hi: nat)
    requires lo <= hi <= |p| && forall d :: lo <= d < hi ==> p[d] != STAR
    requires Matches(s, p[lo..])
    ensures hi - lo <= |s| && Matches(s[hi - lo..], p[hi..])
    decreases hi - lo
  {
    if lo < hi {
      assert p[lo..][0] == p[lo] && p[lo..][1..] == p[lo + 1..];
      StretchTakes(s[1..], p, lo + 1, hi);
      assert s[1..][hi - lo - 1..] == s[hi - lo..];
    } else {
      assert s[0..] == s;
    }
  }

  /**
   Only the last star matters: if the text still matches by giving an earlier star more, it
   also matches by leaving the later star where it was found.
   */
  lemma LaterStarWins(s: seq<Byte>, p: seq<Byte>, star: nat, match_: nat, j: nat, k: nat)
    requires star < j < |p| && p[j] == STAR
    requires Literal(s, match_, p, star + 1, j)
    requires match_ < k <= |s| && Matches(s[k..], p[star + 1..])
    ensures Matches(s[match_ + (j - star - 1)..], p[j..])
  {
    var n := j - star - 1;
    StretchTakes(s[k..], p, star + 1, j);
    assert s[k..][n..] == s[k + n..];
    StarAbsorbs(s, p[j..], match_ + n, k + n);
  }

  /** What a star matches it still matches with more text in front. */
  lemma {:induction false} StarAbsorbs(s: seq<Byte>, q: seq<Byte>, a: nat, b: nat)
    requires a <= b <= |s| && q != [] && q[0] == STAR && Matches(s[b..], q)
    ensures Matches(s[a..], q)
    decreases b - a
  {
    if a < b {
      StarAbsorbs(s, q, a + 1, b);
      assert s[a..][1..] == s[a + 1..];
    }
  }

  /** Giving the last star more than it has been given so far. */
  ghost predicate Retry(s: seq<Byte>, p: seq<Byte>, star: int, match_: nat)
  {
    0 <= star < |p| && exists k :: match_ < k <= |s| && Matches(s[k..], p[star + 1..])
  }

  lemma OneStep(s: seq<Byte>, p: seq<Byte>, i: nat, j: nat)
    requires i < |s| && j < |p| && p[j] != STAR
    ensures Matches(s[i..], p[j..]) <==> One(s[i], p[j]) && Matches(s[i + 1..], p[j + 1..])
  {
    assert s[i..][1..] == s[i + 1..] && p[j..][1..] == p[j + 1..];
  }

  lemma RetryStep(s: seq<Byte>, p: seq<Byte>, star: int, match_: nat)
    requires 0 <= star < |p| && match_ < |s|
    ensures Retry(s, p, star, match_) <==> Matches(s[match_ + 1..], p[star + 1..]) || Retry(s, p, star, match_ + 1)
  {
  }

  lemma {:induction false} OnlyStars(p: seq<Byte>, j: nat)
    requires j <= |p|
    ensures Matches([], p[j..]) <==> forall d :: j <= d < |p| ==> p[d] == STAR
    decreases |p| - j
  {
    if j < |p| {
      assert p[j..][1..] == p[j + 1..];
      OnlyStars(p, j + 1);
    }
  }

  /** Meeting a star: what is left to try is what this star may be given. */
  lemma NewStar(s: seq<Byte>, p: seq<Byte>, i: nat, j: nat, star: int, match_: nat)
    requires i < |s| && j < |p| && p[j] == STAR && -1 <= star < j && match_ <= i
    requires star >= 0 ==> i - match_ == j - star - 1 && Literal(s, match_, p, star + 1, j)
    ensures Matches(s[i..], p[j..]) || Retry(s, p, star, match_)
            <==> Matches(s[i..], p[j + 1..]) || Retry(s, p, j, i)
  {
    if Retry(s, p, star, match_) {
      var k :| match_ < k <= |s| && Matches(s[k..], p[star + 1..]);
      LaterStarWins(s, p, star, match_, j, k);
    }
    assert p[j..][1..] == p[j + 1..];
    StarMatches(s[i..], p[j..]);
    if Matches(s[i..], p[j..]) {
      var k :| 0 <= k <= |s[i..]| && Matches(s[i..][k..], p[j + 1..]);
      assert s[i..][k..] == s[i + k..];
    }
    if Retry(s, p, j, i) {
      var k :| i < k <= |s| && Matches(s[k..], p[j + 1..]);
      assert s[k..] == s[i..][k - i..];
    }
    assert s[i..][0..] == s[i..];
  }

  lemma Mismatch(s: seq<Byte>, p: seq<Byte>, i: nat, j: nat)
    requires i < |s| && j <= |p|
    requires j < |p| ==> p[j] != STAR && !One(s[i], p[j])
    ensures !Matches(s[i..], p[j..])
  {
    if j < |p| {
      OneStep(s, p, i, j);
    }
  }

  /** With the text used up, giving the last star more leaves too little for what follows it. */
  lemma NoRetryAtEnd(s: seq<Byte>, p: seq<Byte>, j: nat, star: int, match_: nat)
    requires -1 <= star < j <= |p| || star == -1
    requires star >= 0 ==> |s| - match_ == j - star - 1 && Literal(s, match_, p, star + 1, j)
    ensures !Retry(s, p, star, match_)
  {
    if Retry(s, p, star, match_) {
      var k :| match_ < k <= |s| && Matches(s[k..], p[star + 1..]);
      StretchTakes(s[k..], p, star + 1, j);
    }
  }

  lemma AtStart(s: seq<Byte>, p: seq<Byte>)
    ensures Scanned(s, p, 0, 0, -1, 0)
  {
    assert s[0..] == s && p[0..] == p;
  }

  lemma AtStar(s: seq<Byte>, p: seq<Byte>, i: nat, j: nat, star: int, match_: nat)
    requires Scanned(s, p, i, j, star, match_) && i < |s| && j < |p| && p[j] == STAR
    ensures Scanned(s, p, i, j + 1, j, i)
  {
    NewStar(s, p, i, j, star, match_);
  }

  lemma AtByte(s: seq<Byte>, p: seq<Byte>, i: nat, j: nat, star: int, match_: nat)
    requires Scanned(s, p, i, j, star, match_) && i < |s| && j < |p| && p[j] != STAR && One(s[i], p[j])
    ensures Scanned(s, p, i + 1, j + 1, star, match_)
  {
    OneStep(s, p, i, j);
  }

  lemma AtMismatch(s: seq<Byte>, p: seq<Byte>, i: nat, j: nat, star: int, match_: nat)
    requires Scanned(s, p, i, j, star, match_) && i < |s|
    requires j < |p| ==> p[j] != STAR && !One(s[i], p[j])
    ensures star >= 0 ==> Scanned(s, p, match_ + 1, star + 1, star, match_ + 1)
    ensures star < 0 ==> !Matches(s, p)
  {
    Mismatch(s, p, i, j);
    if star >= 0 {
      RetryStep(s, p, star, match_);
    }
  }

  lemma AtEnd(s: seq<Byte>, p: seq<Byte>, j: nat, star: int, match_: nat)
    requires Scanned(s, p, |s|, j, star, match_)
    ensures Matches(s, p) <==> forall d :: j <= d < |p| ==> p[d] == STAR
  {
    NoRetryAtEnd(s, p, j, star, match_);
    OnlyStars(p, j);
    assert s[|s|..] == [];
  }

  /** What the loop knows: the stretch since the last star is matched, and what is left to try. */
  ghost predicate Scanned(s: seq<Byte>, p: seq<Byte>, i: int, j: int, star: int, match_: int)
  {
    && 0 <= match_ <= i <= |s| && -1 <= star < j <= |p|
    && (star >= 0 ==>
          && i - match_ == j - star - 1 && p[star] == STAR
          && Literal(s, match_, p, star + 1, j))
    && (Matches(s, p) <==> Matches(s[i..], p[j..]) || Retry(s, p, star, match_))
  }

  method WildcardMatch(str: seq<Byte>, pattern: seq<Byte>) returns (b: bool)
    ensures b <==> Matches(str, pattern)
  {
    hide Scanned, Matches;
    var n := |pattern|;
    var i, j := 0, 0;
    var asterisk, match_ := -1, 0;
    AtStart(str, pattern);
    while i < |str|
      invariant 0 <= match_ <= i <= |str| && -1 <= asterisk < j <= n
      invariant Scanned(str, pattern, i, j, asterisk, match_)
      decreases n - asterisk, |str| - match_, |str| - i
    {
      if j < n && pattern[j] == STAR {
        AtStar(str, pattern, i, j, asterisk, match_);
        match_ := i;
        asterisk := j;
        j := j + 1;
      } else if j < n && (str[i] == pattern[j] || pattern[j] == ANY) {
        AtByte(str, pattern, i, j, asterisk, match_);
        i := i + 1;
        j := j + 1;
      } else if asterisk >= 0 {
        AtMismatch(str, pattern, i, j, asterisk, match_);
        match_ := match_ + 1;
        i := match_;
        j := asterisk + 1;
      } else {
        AtMismatch(str, pattern, i, j, asterisk, match_);
        return false;
      }
    }
    AtEnd(str, pattern, j, asterisk, match_);
    ghost var j0 := j;
    while j < n && pattern[j] == STAR
      invariant j0 <= j <= n && forall d :: j0 <= d < j ==> pattern[d] == STAR
    {
      j := j + 1;
    }
    return j == n;
  }
}
