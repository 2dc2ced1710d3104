/**
 * String helpers with the semantics of the Python string operations the server
 * uses: substring test (`sep in s`), `str.find` and `str.split(sep)`.
 */
module Text {

  /** `sep` occurs in `s` starting at index `i`. */
  predicate OccursAt(s: string, sep: string, i: int) {
    0 <= i && i + |sep| <= |s| && s[i..i + |sep|] == sep
  }

  /** Python's `sep in s` for strings. */
  predicate Contains(s: string, sep: string) {
    exists i | 0 <= i <= |s| :: OccursAt(s, sep, i)
  }

  lemma OccursAtShift(s: string, sep: string, i: int)
    requires |s| > 0 && i >= 0
    ensures OccursAt(s, sep, i + 1) <==> OccursAt(s[1..], sep, i)
  {
    if 0 <= i && i + 1 + |sep| <= |s| {
      assert s[1..][i..i + |sep|] == s[i + 1..i + 1 + |sep|];
    }
  }

  /** Python's `s.find(sep)` when `sep` occurs: the leftmost occurrence. */
  function IndexOf(s: string, sep: string): (i: nat)
    requires Contains(s, sep)
    ensures OccursAt(s, sep, i)
    ensures forall j :: 0 <= j < i ==> !OccursAt(s, sep, j)
    decreases |s|
  {
    if OccursAt(s, sep, 0) then 0
    else
      var w :| 0 <= w <= |s| && OccursAt(s, sep, w);
      OccursAtShift(s, sep, w - 1);
      assert OccursAt(s[1..], sep, w - 1);
      var k := IndexOf(s[1..], sep);
      OccursAtShift(s, sep, k);
      forall j | 0 <= j < k + 1 ensures !OccursAt(s, sep, j) {
        if j > 0 { OccursAtShift(s, sep, j - 1); }
      }
      k + 1
  }

  /**
   * Python's `s.split(sep)` for a non-empty separator: scanning from the left,
   * every non-overlapping occurrence of `sep` ends one piece and starts the next.
   */
  function SplitOn(s: string, sep: string): (parts: seq<string>)
    requires sep != []
    ensures |parts| >= 1
    // a single piece is the whole string
    ensures |parts| == 1 ==> parts == [s]
    decreases |s|
  {
    if |s| < |sep| then [s]
    else if s[..|sep|] == sep then [[]] + SplitOn(s[|sep|..], sep)
    else
      var rest := SplitOn(s[1..], sep);
      assert |rest| == 1 ==> [s[0]] + rest[0] == s;
      [[s[0]] + rest[0]] + rest[1..]
  }

  /** Python's `sep.join(parts)`. */
  function Join(parts: seq<string>, sep: string): string
    requires |parts| >= 1
  {
    if |parts| == 1 then parts[0] else parts[0] + sep + Join(parts[1..], sep)
  }

  lemma JoinCons(p: string, parts: seq<string>, sep: string)
    requires |parts| >= 1
    ensures Join([p] + parts, sep) == p + sep + Join(parts, sep)
  {
    assert ([p] + parts)[1..] == parts;
  }

  lemma JoinPushFront(c: char, parts: seq<string>, sep: string)
    requires |parts| >= 1
    ensures Join([[c] + parts[0]] + parts[1..], sep) == [c] + Join(parts, sep)
  {
    if |parts| > 1 {
      JoinCons([c] + parts[0], parts[1..], sep);
      assert parts == [parts[0]] + parts[1..];
      JoinCons(parts[0], parts[1..], sep);
    }
  }

  /** Splitting loses nothing: joining the pieces with the separator gives the input back. */
  lemma {:induction false} JoinSplitOn(s: string, sep: string)
    requires sep != []
    ensures Join(SplitOn(s, sep), sep) == s
    decreases |s|
  {
    if |s| < |sep| {
    } else if s[..|sep|] == sep {
      var rest := SplitOn(s[|sep|..], sep);
      assert SplitOn(s, sep) == [[]] + rest;
      JoinSplitOn(s[|sep|..], sep);
      JoinCons([], rest, sep);
      assert s == sep + s[|sep|..];
    } else {
      var rest := SplitOn(s[1..], sep);
      assert SplitOn(s, sep) == [[s[0]] + rest[0]] + rest[1..];
      JoinSplitOn(s[1..], sep);
      JoinPushFront(s[0], rest, sep);
      assert s == [s[0]] + s[1..];
    }
  }

  /** Without an occurrence of the separator, `split` returns the string as the only piece. */
  lemma {:induction false} SplitOnAbsent(s: string, sep: string)
    requires sep != [] && !Contains(s, sep)
    ensures SplitOn(s, sep) == [s]
    decreases |s|
  {
    if |s| >= |sep| {
      assert !OccursAt(s, sep, 0);
      assert s[..|sep|] != sep;
      forall w | 0 <= w <= |s[1..]| ensures !OccursAt(s[1..], sep, w) {
        OccursAtShift(s, sep, w);
      }
      SplitOnAbsent(s[1..], sep);
      assert [s[0]] + s[1..] == s;
    }
  }

  /**
   * At the leftmost occurrence `i` of the separator, `split` cuts off `s[..i]`
   * as the first piece and splits what follows the separator.
   */
  lemma {:induction false} SplitOnFirst(s: string, sep: string, i: nat)
    requires sep != []
    requires OccursAt(s, sep, i)
    requires forall j :: 0 <= j < i ==> !OccursAt(s, sep, j)
    ensures SplitOn(s, sep) == [s[..i]] + SplitOn(s[i + |sep|..], sep)
    decreases i
  {
    if i == 0 {
      assert s[..|sep|] == sep;
    } else {
      assert !OccursAt(s, sep, 0);
      var t := s[1..];
      var rest := SplitOn(t, sep);
      assert SplitOn(s, sep) == [[s[0]] + rest[0]] + rest[1..];
      NoEarlierShift(s, sep, i);
      SplitOnFirst(t, sep, i - 1);
      assert t[..i - 1] == s[1..i];
      assert t[i - 1 + |sep|..] == s[i + |sep|..];
      assert [s[0]] + s[1..i] == s[..i];
    }
  }

  lemma NoEarlierShift(s: string, sep: string, i: nat)
    requires 0 < i && OccursAt(s, sep, i)
    requires forall j :: 0 <= j < i ==> !OccursAt(s, sep, j)
    ensures OccursAt(s[1..], sep, i - 1)
    ensures forall j :: 0 <= j < i - 1 ==> !OccursAt(s[1..], sep, j)
  {
    OccursAtShift(s, sep, i - 1);
    forall j | 0 <= j < i - 1 ensures !OccursAt(s[1..], sep, j) {
      OccursAtShift(s, sep, j);
    }
  }

  /** The piece Python's `s.split(sep)[0]` gives: everything before the first separator. */
  lemma SplitOnHead(s: string, sep: string)
    requires sep != []
    ensures SplitOn(s, sep)[0] == if Contains(s, sep) then s[..IndexOf(s, sep)] else s
  {
    if Contains(s, sep) {
      SplitOnFirst(s, sep, IndexOf(s, sep));
    } else {
      SplitOnAbsent(s, sep);
    }
  }

  /** The text after the first occurrence of `sep`. */
  function After(s: string, sep: string): (r: string)
    requires Contains(s, sep)
    ensures s == s[..IndexOf(s, sep)] + sep + r
  {
    var i := IndexOf(s, sep);
    assert s == s[..i] + s[i..i + |sep|] + s[i + |sep|..];
    s[i + |sep|..]
  }

  /** An occurrence inside a prefix is an occurrence in the whole string. */
  lemma OccursInPrefix(s: string, sep: string, n: nat, j: int)
    requires n <= |s|
    ensures OccursAt(s[..n], sep, j) ==> OccursAt(s, sep, j) && j + |sep| <= n
  {
    if OccursAt(s[..n], sep, j) {
      assert s[..n][j..j + |sep|] == s[j..j + |sep|];
    }
  }

  /** The text before the first occurrence of `sep`, or all of `s` when there is none. */
  function Before(s: string, sep: string): (r: string)
    requires sep != []
    ensures r <= s
    ensures !Contains(r, sep)
    ensures Contains(s, sep) ==> OccursAt(s, sep, |r|) && |r| == IndexOf(s, sep)
    ensures !Contains(s, sep) ==> r == s
  {
    if Contains(s, sep) then
      var i := IndexOf(s, sep);
      assert !Contains(s[..i], sep) by {
        forall j | 0 <= j <= i ensures !OccursAt(s[..i], sep, j) {
          OccursInPrefix(s, sep, i, j);
        }
      }
      s[..i]
    else s
  }

  /**
   * Python's `s.split(sep)[1]`, defined whenever `sep in s`: the text between the
   * first and the second occurrence of the separator, or up to the end of `s`.
   */
  function SecondPiece(s: string, sep: string): (r: string)
    requires sep != [] && Contains(s, sep)
    ensures r == Before(After(s, sep), sep)
    ensures !Contains(r, sep)
  {
    SplitOnFirst(s, sep, IndexOf(s, sep));
    SplitOnHead(After(s, sep), sep);
    SplitOn(s, sep)[1]
  }
}
