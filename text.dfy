/** String helpers with Python's semantics: `str.replace`, `str.split`,
    `str.startswith`, `int()` on a decimal numeral and `str()` of an int.
    Strings are `seq<char>`; character classes are the ASCII ones. */
module Text {
  import opened Wrappers

  predicate IsDigit(c: char) { '0' <= c <= '9' }

  predicate IsLower(c: char) { 'a' <= c <= 'z' }

  predicate IsUpper(c: char) { 'A' <= c <= 'Z' }

  /** A non-empty run of decimal digits, which is what `int()` is given here. */
  predicate IsNumeral(s: string) {
    |s| > 0 && forall k :: 0 <= k < |s| ==> IsDigit(s[k])
  }

  function DigitValue(c: char): (d: nat)
    requires IsDigit(c)
    ensures d < 10
  {
    (c as int - '0' as int) as nat
  }

  function DigitChar(d: nat): (c: char)
    requires d < 10
    ensures IsDigit(c) && DigitValue(c) == d
  {
    ('0' as int + d) as char
  }

  /** `int(s)` for a decimal numeral. */
  function ParseNat(s: string): nat
    requires forall k :: 0 <= k < |s| ==> IsDigit(s[k])
  {
    if |s| == 0 then 0 else 10 * ParseNat(s[..|s| - 1]) + DigitValue(s[|s| - 1])
  }

  /** `str(n)` for a natural number. */
  function NatToString(n: nat): (s: string)
    ensures IsNumeral(s)
    ensures |s| > 1 ==> s[0] != '0'
  {
    if n < 10 then [DigitChar(n)] else NatToString(n / 10) + [DigitChar(n % 10)]
  }

  /** `str(i)` for any integer. */
  function IntToString(i: int): string {
    if i < 0 then "-" + NatToString(-i) else NatToString(i)
  }

  /** `int(str(n)) == n`. */
  lemma {:induction false} ParseNatToString(n: nat)
    ensures ParseNat(NatToString(n)) == n
  {
    if n >= 10 {
      var s := NatToString(n);
      assert s[..|s| - 1] == NatToString(n / 10);
      ParseNatToString(n / 10);
    }
  }

  /** A numeral of at most three digits is below 1000. */
  lemma {:induction false} ShortNumeralBound(s: string)
    requires IsNumeral(s) && |s| <= 3
    ensures ParseNat(s) <= 999
  {
    var p := s[..|s| - 1];
    if |p| > 0 {
      assert IsNumeral(p);
      ShortNumeralBound(p);
      if |p| == 2 {
        var q := p[..1];
        assert ParseNat(p) == 10 * ParseNat(q) + DigitValue(p[1]);
        assert ParseNat(q) == DigitValue(p[0]);
      }
    }
  }

  /** `s.startswith(p)` (and `re.match(p, s)` for a literal `p`). */
  predicate StartsWith(s: string, p: string) {
    |p| <= |s| && s[..|p|] == p
  }

  /** `p` occurs in `s` starting at index `i`. */
  predicate OccursAt(s: string, p: string, i: int) {
    0 <= i && i + |p| <= |s| && s[i..i + |p|] == p
  }

  /** `p in s`. */
  predicate Contains(s: string, p: string) {
    exists i | 0 <= i <= |s| :: OccursAt(s, p, i)
  }

  /** `s.replace(p, r)`: every non-overlapping occurrence of `p`, scanned
      from the left, is replaced by `r`. */
  function ReplaceAll(s: string, p: string, r: string): string
    requires |p| > 0
    decreases |s|
  {
    if |s| < |p| then s
    else if s[..|p|] == p then r + ReplaceAll(s[|p|..], p, r)
    else [s[0]] + ReplaceAll(s[1..], p, r)
  }

  /** No occurrence of `p` in `a + b` starts inside `a`, so `a` is kept whole. */
  lemma {:induction false} ReplaceAllSkips(a: string, b: string, p: string, r: string)
    requires |p| > 0
    requires forall i :: 0 <= i < |a| ==> !OccursAt(a + b, p, i)
    ensures ReplaceAll(a + b, p, r) == a + ReplaceAll(b, p, r)
    decreases |a|
  {
    var s := a + b;
    if |a| > 0 {
      if |s| < |p| {
        assert |b| < |p|;
      } else {
        assert !OccursAt(s, p, 0);
        assert s[1..] == a[1..] + b;
        forall i | 0 <= i < |a[1..]| ensures !OccursAt(a[1..] + b, p, i) {
          assert !OccursAt(s, p, i + 1);
          if i + |p| <= |a[1..] + b| {
            assert (a[1..] + b)[i..i + |p|] == s[i + 1..i + 1 + |p|];
          }
        }
        ReplaceAllSkips(a[1..], b, p, r);
        assert [s[0]] + (a[1..] + ReplaceAll(b, p, r)) == a + ReplaceAll(b, p, r);
      }
    } else {
      assert s == b;
    }
  }

  /** A string with no occurrence of `p` is unchanged by `replace`. */
  lemma ReplaceAllAbsent(s: string, p: string, r: string)
    requires |p| > 0
    requires forall i :: 0 <= i < |s| ==> !OccursAt(s, p, i)
    ensures ReplaceAll(s, p, r) == s
  {
    assert s + [] == s;
    ReplaceAllSkips(s, [], p, r);
  }

  /** A string shorter than `p` is unchanged by `replace`. */
  lemma ReplaceAllShort(s: string, p: string, r: string)
    requires |p| > 0 && |s| < |p|
    ensures ReplaceAll(s, p, r) == s
  {
  }

  /** An occurrence at the very start is replaced first. */
  lemma ReplaceAllLeading(t: string, p: string, r: string)
    requires |p| > 0
    ensures ReplaceAll(p + t, p, r) == r + ReplaceAll(t, p, r)
  {
    assert (p + t)[..|p|] == p;
    assert (p + t)[|p|..] == t;
  }

  /** When the first character of `p` never appears in `a`, no occurrence of
      `p` starts inside `a`. */
  lemma NoOccurrenceWithoutHead(a: string, b: string, p: string)
    requires |p| > 0
    requires forall k :: 0 <= k < |a| ==> a[k] != p[0]
    ensures forall i :: 0 <= i < |a| ==> !OccursAt(a + b, p, i)
  {
    forall i | 0 <= i < |a| ensures !OccursAt(a + b, p, i) {
      assert (a + b)[i] == a[i];
    }
  }

  /** Index of the first occurrence of `p` in `s` at or after `from`. */
  function FindFrom(s: string, p: string, from: nat): (r: Option<nat>)
    ensures r.Some? ==> from <= r.value && OccursAt(s, p, r.value)
    ensures r.Some? ==> forall j :: from <= j < r.value ==> !OccursAt(s, p, j)
    ensures r.None? ==> forall j :: from <= j ==> !OccursAt(s, p, j)
    decreases |s| - from
  {
    if from + |p| > |s| then None
    else if s[from..from + |p|] == p then Some(from)
    else FindFrom(s, p, from + 1)
  }

  /** `s.split(p)[0]`: the text before the first occurrence of `p`. */
  function BeforeFirst(s: string, p: string): (r: string)
    ensures StartsWith(s, r)
  {
    match FindFrom(s, p, 0)
    case None => s
    case Some(k) => s[..k]
  }

  /** `s.split(sep)` for a one-character separator. */
  function Split(s: string, sep: char): (parts: seq<string>)
    ensures |parts| >= 1
  {
    if |s| == 0 then [""]
    else
      var rest := Split(s[1..], sep);
      if s[0] == sep then [""] + rest
      else [[s[0]] + rest[0]] + rest[1..]
  }

  /** `sep.join(parts)`. */
  function Join(parts: seq<string>, sep: char): string
    requires |parts| >= 1
  {
    if |parts| == 1 then parts[0] else parts[0] + [sep] + Join(parts[1..], sep)
  }

  /** Joining the pieces of a split gives the string back. */
  lemma {:induction false} JoinSplit(s: string, sep: char)
    ensures Join(Split(s, sep), sep) == s
  {
    if |s| > 0 {
      var rest := Split(s[1..], sep);
      JoinSplit(s[1..], sep);
      if s[0] != sep {
        if |rest| == 1 {
          assert Split(s, sep) == [[s[0]] + rest[0]];
        } else {
          assert Split(s, sep)[1..] == rest[1..];
        }
      }
    }
  }

  /** No piece of a split contains the separator. */
  lemma {:induction false} SplitPiecesFree(s: string, sep: char)
    ensures forall k, j :: 0 <= k < |Split(s, sep)| && 0 <= j < |Split(s, sep)[k]| ==> Split(s, sep)[k][j] != sep
  {
    if |s| > 0 {
      SplitPiecesFree(s[1..], sep);
      var rest := Split(s[1..], sep);
      if s[0] != sep {
        var parts := Split(s, sep);
        forall k, j | 0 <= k < |parts| && 0 <= j < |parts[k]| ensures parts[k][j] != sep {
          if k == 0 {
            if j > 0 { assert parts[0][j] == rest[0][j - 1]; }
          } else {
            assert parts[k] == rest[k];
          }
        }
      }
    }
  }

  /** Splitting a join of separator-free pieces gives the pieces back. */
  lemma {:induction false} SplitJoin(parts: seq<string>, sep: char)
    requires |parts| >= 1
    requires forall k, j :: 0 <= k < |parts| && 0 <= j < |parts[k]| ==> parts[k][j] != sep
    ensures Split(Join(parts, sep), sep) == parts
    decreases |parts|, |parts[0]|
  {
    var head := parts[0];
    if |head| == 0 {
      if |parts| > 1 {
        SplitJoin(parts[1..], sep);
        var s := Join(parts, sep);
        assert s == [sep] + Join(parts[1..], sep);
        assert s[1..] == Join(parts[1..], sep);
        assert parts == [""] + parts[1..];
      }
    } else {
      var shorter := [head[1..]] + parts[1..];
      assert Join(parts, sep) == [head[0]] + Join(shorter, sep) by {
        if |parts| > 1 {
          assert Join(shorter, sep) == head[1..] + [sep] + Join(parts[1..], sep);
        }
      }
      assert forall k, j :: 0 <= k < |shorter| && 0 <= j < |shorter[k]| ==> shorter[k][j] != sep by {
        forall k, j | 0 <= k < |shorter| && 0 <= j < |shorter[k]| ensures shorter[k][j] != sep {
          if k == 0 { assert shorter[0][j] == head[j + 1]; } else { assert shorter[k] == parts[k]; }
        }
      }
      SplitJoin(shorter, sep);
      var s := Join(parts, sep);
      assert s[1..] == Join(shorter, sep);
      assert head[0] != sep;
      assert [head[0]] + head[1..] == head;
      assert [[head[0]] + head[1..]] + parts[1..] == parts;
    }
  }

  /** A string without the separator splits into itself alone. */
  lemma SplitWithoutSeparator(s: string, sep: char)
    requires forall j :: 0 <= j < |s| ==> s[j] != sep
    ensures Split(s, sep) == [s]
  {
    SplitJoin([s], sep);
  }

  /** Splitting `a + sep + b` with a separator-free `a` gives `a` followed by
      the pieces of `b`. */
  lemma SplitCons(a: string, b: string, sep: char)
    requires forall j :: 0 <= j < |a| ==> a[j] != sep
    ensures Split(a + [sep] + b, sep) == [a] + Split(b, sep)
  {
    var parts := [a] + Split(b, sep);
    SplitPiecesFree(b, sep);
    JoinSplit(b, sep);
    assert parts[1..] == Split(b, sep);
    assert Join(parts, sep) == a + [sep] + b;
    forall k, j | 0 <= k < |parts| && 0 <= j < |parts[k]| ensures parts[k][j] != sep {
      if k > 0 { assert parts[k] == Split(b, sep)[k - 1]; }
    }
    SplitJoin(parts, sep);
  }

  /** The last piece of splitting `a + sep + b`, with a separator-free `b`,
      is `b`. */
  lemma {:induction false} SplitLast(a: string, b: string, sep: char)
    requires forall j :: 0 <= j < |b| ==> b[j] != sep
    ensures |Split(a + [sep] + b, sep)| >= 2
    ensures Split(a + [sep] + b, sep)[|Split(a + [sep] + b, sep)| - 1] == b
  {
    if |a| == 0 {
      assert a + [sep] + b == [] + [sep] + b;
      SplitCons([], b, sep);
      SplitWithoutSeparator(b, sep);
    } else {
      var s := a + [sep] + b;
      assert s[1..] == a[1..] + [sep] + b;
      SplitLast(a[1..], b, sep);
    }
  }

  /** An occurrence of `a + b` is an occurrence of `a` followed by one of `b`. */
  lemma OccursAtConcat(s: string, a: string, b: string, i: int)
    ensures OccursAt(s, a + b, i) <==> OccursAt(s, a, i) && OccursAt(s, b, i + |a|)
  {
    if OccursAt(s, a, i) && OccursAt(s, b, i + |a|) {
      assert s[i..i + |a + b|] == s[i..i + |a|] + s[i + |a|..i + |a| + |b|];
    }
    if OccursAt(s, a + b, i) {
      assert s[i..i + |a|] == (a + b)[..|a|];
      assert s[i + |a|..i + |a| + |b|] == (a + b)[|a|..];
    }
  }

  /** The characters of an occurrence. */
  lemma OccursAtChar(s: string, p: string, i: int, k: int)
    requires OccursAt(s, p, i) && 0 <= k < |p|
    ensures s[i + k] == p[k]
  {
    assert s[i..i + |p|][k] == s[i + k];
  }

  /** The middle of a concatenation occurs where it was put. */
  lemma OccursInConcat(a: string, b: string, c: string)
    ensures OccursAt(a + b + c, b, |a|)
  {
    assert (a + b + c)[|a|..|a| + |b|] == b;
  }

  /** An occurrence at 0 as long as the string is the string. */
  lemma OccursWhole(s: string, x: string)
    requires OccursAt(s, x, 0) && |x| == |s|
    ensures s == x
  {
    assert s[0..|s|] == s;
  }

  /** String concatenation of a list of pieces, left to right. */
  function Concat(pieces: seq<string>): string {
    if |pieces| == 0 then "" else Concat(pieces[..|pieces| - 1]) + pieces[|pieces| - 1]
  }

  /** Concatenating one more piece appends it. */
  lemma ConcatSnoc(pieces: seq<string>, piece: string)
    ensures Concat(pieces + [piece]) == Concat(pieces) + piece
  {
    assert (pieces + [piece])[..|pieces|] == pieces;
  }

  /** Concatenation distributes over list append. */
  lemma {:induction false} ConcatAppend(a: seq<string>, b: seq<string>)
    ensures Concat(a + b) == Concat(a) + Concat(b)
    decreases |b|
  {
    if |b| == 0 {
      assert a + b == a;
    } else {
      var b' := b[..|b| - 1];
      assert (a + b)[..|a + b| - 1] == a + b';
      ConcatAppend(a, b');
    }
  }

  /** A subset is no larger than its superset. */
  lemma SubsetSize<T>(s: set<T>, t: set<T>)
    requires s <= t
    ensures |s| <= |t|
  {
    assert t == s + (t - s);
  }

  /** ASCII lower-casing, used for case-insensitive matching. */
  function ToLower(c: char): char {
    if IsUpper(c) then (c as int + 32) as char else c
  }
}
