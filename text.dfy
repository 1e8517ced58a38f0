/** String operations of Python that the model needs: decimal rendering of integers
    (f-string interpolation), `sep.join(parts)`, `s.split(sep)` and string ordering. */
module Text {

  predicate IsDigit(c: char) {
    '0' <= c <= '9'
  }

  function DigitChar(d: nat): (c: char)
    requires d < 10
    ensures IsDigit(c) && c as int - '0' as int == d
  {
    (d + '0' as int) as char
  }

  /** The decimal numeral of `n`, without leading zeros: `str(n)` for `n >= 0`. */
  function NatToString(n: nat): (s: string)
    ensures |s| >= 1
    ensures forall i :: 0 <= i < |s| ==> IsDigit(s[i])
    ensures n >= 10 ==> s[0] != '0'
    decreases n
  {
    if n < 10 then [DigitChar(n)]
    else NatToString(n / 10) + [DigitChar(n % 10)]
  }

  /** `str(i)` for any Python integer: a minus sign before the numeral of `-i`. */
  function IntToString(i: int): (s: string)
    ensures |s| >= 1
    ensures '\n' !in s
  {
    if i < 0 then "-" + NatToString(-i) else NatToString(i)
  }

  /** Python's `s.startswith(prefix)`. */
  predicate StartsWith(s: string, prefix: string) {
    |prefix| <= |s| && s[..|prefix|] == prefix
  }

  /** Python's `sep.join(parts)`. */
  function Join(parts: seq<string>, sep: string): string
  {
    if |parts| == 0 then []
    else if |parts| == 1 then parts[0]
    else parts[0] + sep + Join(parts[1..], sep)
  }

  lemma {:induction false} JoinAppend(a: seq<string>, b: seq<string>, sep: string)
    requires a != [] && b != []
    ensures Join(a + b, sep) == Join(a, sep) + sep + Join(b, sep)
  {
    if |a| == 1 {
      assert (a + b)[1..] == b;
    } else {
      assert (a + b)[1..] == a[1..] + b;
      JoinAppend(a[1..], b, sep);
    }
  }

  /** `sep` occurs in `s` starting at position `i`. */
  predicate OccursAt(s: string, sep: string, i: int) {
    0 <= i && i + |sep| <= |s| && s[i..i + |sep|] == sep
  }

  /** Python's `s.split(sep)`: the pieces between the non-overlapping occurrences of
      `sep`, found from left to right. */
  function Split(s: string, sep: string): (parts: seq<string>)
    requires |sep| > 0
    ensures |parts| >= 1
    decreases |s|
  {
    if |s| < |sep| then [s]
    else if s[..|sep|] == sep then [[]] + Split(s[|sep|..], sep)
    else
      var rest := Split(s[1..], sep);
      [[s[0]] + rest[0]] + rest[1..]
  }

  /** Where `sep` does not occur, `split` returns the whole string. */
  lemma {:induction false} SplitWithoutSeparator(s: string, sep: string)
    requires |sep| > 0
    requires forall i :: 0 <= i <= |s| - |sep| ==> !OccursAt(s, sep, i)
    ensures Split(s, sep) == [s]
    decreases |s|
  {
    if |s| >= |sep| {
      assert !OccursAt(s, sep, 0);
      forall i | 0 <= i <= |s[1..]| - |sep| ensures !OccursAt(s[1..], sep, i) {
        assert !OccursAt(s, sep, i + 1);
        assert s[1..][i..i + |sep|] == s[i + 1..i + 1 + |sep|];
      }
      SplitWithoutSeparator(s[1..], sep);
      assert s[..|sep|] == s[0..|sep|];
      assert [s[0]] + s[1..] == s;
    }
  }

  /** An occurrence in the tail of `s` is an occurrence in `s`, one position later. */
  lemma OccursAtTail(s: string, sep: string, j: nat)
    requires |s| > 0
    ensures OccursAt(s[1..], sep, j) <==> OccursAt(s, sep, j + 1)
  {
    if j + |sep| <= |s| - 1 {
      assert s[1..][j..j + |sep|] == s[j + 1..j + 1 + |sep|];
    }
  }

  /** The first piece of `split` ends at the first occurrence of `sep`. */
  lemma {:induction false} SplitAtFirst(s: string, sep: string, i: nat)
    requires |sep| > 0
    requires OccursAt(s, sep, i)
    requires forall j :: 0 <= j < i ==> !OccursAt(s, sep, j)
    ensures Split(s, sep) == [s[..i]] + Split(s[i + |sep|..], sep)
    decreases i
  {
    if i == 0 {
      assert s[..|sep|] == sep;
      assert s[|sep|..] == s[i + |sep|..];
    } else {
      FirstOccurrenceInTail(s, sep, i);
      var t := s[1..];
      SplitAtFirst(t, sep, i - 1);
      TailSlices(s, i, |sep|);
      SplitStepPastHead(s[0], t, sep, t[..i - 1], t[i - 1 + |sep|..]);
    }
  }

  /** The slices of `s[1..]` that the step past the head of `s` relates to those of `s`. */
  lemma TailSlices(s: string, i: nat, n: nat)
    requires 0 < i && i + n <= |s|
    ensures [s[0]] + s[1..] == s
    ensures s[1..][i - 1 + n..] == s[i + n..]
    ensures [s[0]] + s[1..][..i - 1] == s[..i]
  {
  }

  /** A first occurrence at i > 0 is, in the tail, a first occurrence at i - 1. */
  lemma FirstOccurrenceInTail(s: string, sep: string, i: nat)
    requires i > 0 && OccursAt(s, sep, i)
    requires forall j :: 0 <= j < i ==> !OccursAt(s, sep, j)
    ensures |s| >= |sep| && s[..|sep|] != sep
    ensures OccursAt(s[1..], sep, i - 1)
    ensures forall j :: 0 <= j < i - 1 ==> !OccursAt(s[1..], sep, j)
  {
    assert !OccursAt(s, sep, 0);
    OccursAtTail(s, sep, i - 1);
    forall j | 0 <= j < i - 1 ensures !OccursAt(s[1..], sep, j) {
      OccursAtTail(s, sep, j);
    }
  }

  /** When `[c] + t` does not start with `sep`, its first piece is the first piece of `t`
      with `c` in front, and the other pieces are those of `t`. */
  lemma SplitStepPastHead(c: char, t: string, sep: string, head: string, tail: string)
    requires |sep| > 0 && |[c] + t| >= |sep| && ([c] + t)[..|sep|] != sep
    requires Split(t, sep) == [head] + Split(tail, sep)
    ensures Split([c] + t, sep) == [[c] + head] + Split(tail, sep)
  {
    assert ([c] + t)[1..] == t;
  }

  /** Splitting on a one-character separator undoes joining with it, provided no part
      contains that character. */
  lemma {:induction false} SplitJoin(parts: seq<string>, c: char)
    requires |parts| >= 1
    requires forall k :: 0 <= k < |parts| ==> c !in parts[k]
    ensures Split(Join(parts, [c]), [c]) == parts
  {
    var s := Join(parts, [c]);
    if |parts| == 1 {
      forall i | 0 <= i <= |s| - 1 ensures !OccursAt(s, [c], i) {
        assert s[i..i + 1] == [s[i]];
      }
      SplitWithoutSeparator(s, [c]);
    } else {
      var n := |parts[0]|;
      assert s == parts[0] + [c] + Join(parts[1..], [c]);
      assert OccursAt(s, [c], n) by {
        assert s[n..n + 1] == [c];
      }
      forall j | 0 <= j < n ensures !OccursAt(s, [c], j) {
        assert s[j..j + 1] == [parts[0][j]];
      }
      SplitAtFirst(s, [c], n);
      assert s[..n] == parts[0];
      assert s[n + 1..] == Join(parts[1..], [c]);
      SplitJoin(parts[1..], c);
    }
  }

  /** Joining the pieces of `split` with the separator gives back the string. */
  lemma {:induction false} JoinSplit(s: string, sep: string)
    requires |sep| > 0
    ensures Join(Split(s, sep), sep) == s
    decreases |s|
  {
    if |s| < |sep| {
    } else if s[..|sep|] == sep {
      var tail := s[|sep|..];
      var rest := Split(tail, sep);
      assert Split(s, sep) == [[]] + rest;
      JoinSplit(tail, sep);
      JoinPrependEmpty(rest, sep);
      assert s == sep + tail;
    } else {
      var rest := Split(s[1..], sep);
      assert Split(s, sep) == [[s[0]] + rest[0]] + rest[1..];
      JoinSplit(s[1..], sep);
      JoinPrepend(s[0], rest, sep);
      assert s == [s[0]] + s[1..];
    }
  }

  lemma JoinPrependEmpty(parts: seq<string>, sep: string)
    requires |parts| >= 1
    ensures Join([[]] + parts, sep) == sep + Join(parts, sep)
  {
    assert ([[]] + parts)[1..] == parts;
  }

  lemma JoinPrepend(c: char, parts: seq<string>, sep: string)
    requires |parts| >= 1
    ensures Join([[c] + parts[0]] + parts[1..], sep) == [c] + Join(parts, sep)
  {
    var joined := [[c] + parts[0]] + parts[1..];
    if |parts| > 1 {
      assert joined[1..] == parts[1..];
    }
  }

  /** No piece of a split on a single character contains that character. */
  lemma {:induction false} SplitPiecesAvoid(s: string, c: char)
    ensures forall k :: 0 <= k < |Split(s, [c])| ==> c !in Split(s, [c])[k]
    decreases |s|
  {
    if |s| >= 1 {
      SplitPiecesAvoid(s[1..], c);
      if s[..1] != [c] {
        assert s[0] != c by {
          assert s[..1] == [s[0]];
        }
      }
    }
  }

  /** An occurrence of `sep` makes `split` return at least two pieces. */
  lemma {:induction false} SplitAtLeastTwo(s: string, sep: string, i: nat)
    requires |sep| > 0 && OccursAt(s, sep, i)
    ensures |Split(s, sep)| >= 2
    decreases i
  {
    if s[..|sep|] != sep {
      assert i != 0;
      assert OccursAt(s[1..], sep, i - 1) by {
        assert s[1..][i - 1..i - 1 + |sep|] == s[i..i + |sep|];
      }
      SplitAtLeastTwo(s[1..], sep, i - 1);
    }
  }

  /** Two non-overlapping occurrences of `sep` make `split` return at least three pieces. */
  lemma {:induction false} SplitAtLeastThree(s: string, sep: string, i: nat, j: nat)
    requires |sep| > 0 && OccursAt(s, sep, i) && OccursAt(s, sep, j) && i + |sep| <= j
    ensures |Split(s, sep)| >= 3
    decreases i
  {
    if s[..|sep|] == sep {
      assert OccursAt(s[|sep|..], sep, j - |sep|) by {
        assert s[|sep|..][j - |sep|..j] == s[j..j + |sep|];
      }
      SplitAtLeastTwo(s[|sep|..], sep, j - |sep|);
    } else {
      assert i != 0;
      assert OccursAt(s[1..], sep, i - 1) by {
        assert s[1..][i - 1..i - 1 + |sep|] == s[i..i + |sep|];
      }
      assert OccursAt(s[1..], sep, j - 1) by {
        assert s[1..][j - 1..j - 1 + |sep|] == s[j..j + |sep|];
      }
      SplitAtLeastThree(s[1..], sep, i - 1, j - 1);
    }
  }

  /** The last piece of a split on `c` (Python's `s.split(c)[-1]`) is the text after the
      last `c` of `s`, or all of `s` when it has no `c`. */
  lemma LastPieceAfterLastSeparator(s: string, c: char)
    ensures var parts := Split(s, [c]);
            var last := parts[|parts| - 1];
            c !in last && |last| <= |s| && s[|s| - |last|..] == last &&
            (|last| < |s| ==> s[|s| - |last| - 1] == c)
  {
    var parts := Split(s, [c]);
    var last := parts[|parts| - 1];
    SplitPiecesAvoid(s, c);
    JoinSplit(s, [c]);
    if |parts| >= 2 {
      var init := parts[..|parts| - 1];
      assert parts == init + [last];
      JoinAppend(init, [last], [c]);
      assert s == Join(init, [c]) + [c] + last;
    }
  }

  /** Code-point lexicographic order on strings: `a <= b` as Python compares `str`. */
  predicate LexLe(a: string, b: string)
    decreases |a|
  {
    if a == [] then true
    else if b == [] then false
    else if a[0] != b[0] then a[0] < b[0]
    else LexLe(a[1..], b[1..])
  }

  lemma {:induction false} LexLeTotal(a: string, b: string)
    ensures LexLe(a, b) || LexLe(b, a)
    decreases |a|
  {
    if a != [] && b != [] && a[0] == b[0] {
      LexLeTotal(a[1..], b[1..]);
    }
  }

  lemma {:induction false} LexLeTransitive(a: string, b: string, c: string)
    requires LexLe(a, b) && LexLe(b, c)
    ensures LexLe(a, c)
    decreases |a|
  {
    if a != [] && b != [] && c != [] && a[0] == b[0] && b[0] == c[0] {
      LexLeTransitive(a[1..], b[1..], c[1..]);
    }
  }
}
