/** Splitting, joining, trimming and filtering of sequences, as the text handling needs them. */
module Sequences {
  import opened Wrappers

  predicate IsPrefix<T(==)>(a: seq<T>, b: seq<T>) {
    |a| <= |b| && a == b[..|a|]
  }

  /** The pieces of `s` between separators; there is always at least one piece. */
  function Split<T(==)>(s: seq<T>, sep: T): (pieces: seq<seq<T>>)
    ensures |pieces| >= 1
  {
    if s == [] then [[]]
    else
      var rest := Split(s[1..], sep);
      if s[0] == sep then [[]] + rest else [[s[0]] + rest[0]] + rest[1..]
  }

  function Join<T>(pieces: seq<seq<T>>, sep: T): seq<T> {
    if |pieces| == 0 then []
    else if |pieces| == 1 then pieces[0]
    else pieces[0] + [sep] + Join(pieces[1..], sep)
  }

  lemma {:induction false} SplitWithout<T>(s: seq<T>, sep: T)
    requires sep !in s
    ensures Split(s, sep) == [s]
  {
    if s != [] {
      assert s == [s[0]] + s[1..];
      SplitWithout(s[1..], sep);
    }
  }

  lemma {:induction false} SplitConcat<T>(a: seq<T>, sep: T, b: seq<T>)
    ensures Split(a + [sep] + b, sep) == Split(a, sep) + Split(b, sep)
  {
    var whole := a + [sep] + b;
    if a == [] {
      assert whole[1..] == b;
    } else {
      assert whole[1..] == a[1..] + [sep] + b;
      SplitConcat(a[1..], sep, b);
    }
  }

  lemma {:induction false} SplitJoin<T>(pieces: seq<seq<T>>, sep: T)
    requires pieces != []
    requires forall p :: p in pieces ==> sep !in p
    ensures Split(Join(pieces, sep), sep) == pieces
  {
    SplitWithout(pieces[0], sep);
    if |pieces| > 1 {
      SplitJoin(pieces[1..], sep);
      SplitConcat(pieces[0], sep, Join(pieces[1..], sep));
    }
  }

  /** Splitting a joined list splits each of its pieces, in order. */
  lemma {:induction false} SplitJoinPieces<T>(pieces: seq<seq<T>>, sep: T, i: nat)
    requires i < |pieces|
    ensures forall part :: part in Split(pieces[i], sep) ==> part in Split(Join(pieces, sep), sep)
  {
    if |pieces| > 1 {
      SplitConcat(pieces[0], sep, Join(pieces[1..], sep));
      if i > 0 {
        SplitJoinPieces(pieces[1..], sep, i - 1);
      }
    }
  }

  /** A separator in any piece makes the joined list split into more pieces than were joined. */
  lemma {:induction false} SplitJoinCount<T>(pieces: seq<seq<T>>, sep: T)
    requires pieces != []
    ensures |Split(Join(pieces, sep), sep)| >= |pieces|
    ensures (exists p :: p in pieces && sep in p) ==> |Split(Join(pieces, sep), sep)| > |pieces|
  {
    if sep in pieces[0] {
      SplitCount(pieces[0], sep);
    }
    if |pieces| > 1 {
      SplitConcat(pieces[0], sep, Join(pieces[1..], sep));
      SplitJoinCount(pieces[1..], sep);
    }
  }

  lemma {:induction false} SplitCount<T>(s: seq<T>, sep: T)
    requires sep in s
    ensures |Split(s, sep)| >= 2
  {
    if s[0] != sep {
      SplitCount(s[1..], sep);
    }
  }

  lemma {:induction false} JoinSplit<T>(s: seq<T>, sep: T)
    ensures Split(s, sep) != [] && Join(Split(s, sep), sep) == s
    ensures forall piece :: piece in Split(s, sep) ==> sep !in piece
  {
    if s != [] {
      JoinSplit(s[1..], sep);
      var rest := Split(s[1..], sep);
      assert s == [s[0]] + s[1..];
      if s[0] == sep {
        assert Split(s, sep)[1..] == rest;
      } else {
        assert Split(s, sep)[1..] == rest[1..];
        assert rest[0] in rest;
      }
    }
  }

  /** What precedes and what follows the first separator, when there is one. */
  function SplitOnce<T(==)>(s: seq<T>, sep: T): Option<(seq<T>, seq<T>)> {
    if s == [] then None
    else if s[0] == sep then Some(([], s[1..]))
    else
      match SplitOnce(s[1..], sep)
      case None => None
      case Some((before, after)) => Some(([s[0]] + before, after))
  }

  lemma {:induction false} SplitOnceParts<T>(s: seq<T>, sep: T)
    ensures match SplitOnce(s, sep)
      case None => sep !in s
      case Some((before, after)) => s == before + [sep] + after && sep !in before
  {
    if s != [] && s[0] != sep {
      SplitOnceParts(s[1..], sep);
      assert s == [s[0]] + s[1..];
    }
  }

  lemma {:induction false} SplitOnceAt<T>(before: seq<T>, sep: T, after: seq<T>)
    requires sep !in before
    ensures SplitOnce(before + [sep] + after, sep) == Some((before, after))
  {
    var whole := before + [sep] + after;
    if before == [] {
      assert whole[1..] == after;
    } else {
      assert whole[1..] == before[1..] + [sep] + after;
      SplitOnceAt(before[1..], sep, after);
      assert before == [before[0]] + before[1..];
    }
  }

  /** Unicode `White_Space`. */
  predicate IsWhitespace(c: char) {
    var n := c as int;
    9 <= n <= 13 || n == 0x20 || n == 0x85 || n == 0xA0 || n == 0x1680 || 0x2000 <= n <= 0x200A
    || n == 0x2028 || n == 0x2029 || n == 0x202F || n == 0x205F || n == 0x3000
  }

  function TrimStart(s: string): string {
    if s != [] && IsWhitespace(s[0]) then TrimStart(s[1..]) else s
  }

  function TrimEnd(s: string): string {
    if s != [] && IsWhitespace(s[|s| - 1]) then TrimEnd(s[..|s| - 1]) else s
  }

  function Trim(s: string): string {
    TrimEnd(TrimStart(s))
  }

  lemma TrimSolid(s: string)
    requires s != [] && !IsWhitespace(s[0]) && !IsWhitespace(s[|s| - 1])
    ensures Trim(s) == s
  {}

  function StripPrefix(s: string, prefix: string): Option<string> {
    if |prefix| <= |s| && s[..|prefix|] == prefix then Some(s[|prefix|..]) else None
  }

  function StripSuffix(s: string, suffix: string): Option<string> {
    if |suffix| <= |s| && s[|s| - |suffix|..] == suffix then Some(s[..|s| - |suffix|]) else None
  }

  function Filter<T>(s: seq<T>, keep: T -> bool): seq<T> {
    if s == [] then []
    else (if keep(s[0]) then [s[0]] else []) + Filter(s[1..], keep)
  }

  lemma {:induction false} FilterMembers<T(!new)>(s: seq<T>, keep: T -> bool)
    ensures forall x :: x in Filter(s, keep) <==> x in s && keep(x)
    ensures |Filter(s, keep)| <= |s|
  {
    if s != [] {
      FilterMembers(s[1..], keep);
      assert s == [s[0]] + s[1..];
    }
  }

  lemma {:induction false} NoneKept<T(!new)>(s: seq<T>, keep: T -> bool)
    requires forall x :: x in s ==> !keep(x)
    ensures Filter(s, keep) == []
  {
    if s != [] {
      assert s[0] in s;
      NoneKept(s[1..], keep);
    }
  }

  /** Every kept element stands where an element of the whole sequence stood, in the same order. */
  lemma {:induction false} FilterPairs<T(!new)>(s: seq<T>, keep: T -> bool, i: nat, j: nat)
    returns (i': nat, j': nat)
    requires i < j < |Filter(s, keep)|
    ensures i' < j' < |s| && s[i'] == Filter(s, keep)[i] && s[j'] == Filter(s, keep)[j]
  {
    if keep(s[0]) {
      if i == 0 {
        FilterMembers(s[1..], keep);
        var other := Filter(s[1..], keep)[j - 1];
        assert other in Filter(s[1..], keep) && other in s[1..];
        var k :| 0 <= k < |s[1..]| && s[1..][k] == other;
        i', j' := 0, k + 1;
      } else {
        i', j' := FilterPairs(s[1..], keep, i - 1, j - 1);
        i', j' := i' + 1, j' + 1;
      }
    } else {
      i', j' := FilterPairs(s[1..], keep, i, j);
      i', j' := i' + 1, j' + 1;
    }
  }
}
