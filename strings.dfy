/** Option, used wherever the source has `Option<T>`. */
module Wrappers {
  datatype Option<+T> = None | Some(value: T)
}

/**
 * The small pieces of Rust's `str` API that the core relies on, stated over
 * `seq<char>`: `split` on one character, `join`, `replace` of one character,
 * `lines`, and decimal rendering of a count.
 */
module Strings {

  /** The pieces of `s` between occurrences of `sep` (Rust `s.split(sep)`): at least one piece, none holding `sep`. */
  function Split(s: string, sep: char): (r: seq<string>)
    ensures |r| > 0
    ensures forall i :: 0 <= i < |r| ==> sep !in r[i]
    decreases |s|
  {
    if s == [] then [""]
    else if s[0] == sep then [""] + Split(s[1..], sep)
    else
      var rest := Split(s[1..], sep);
      [[s[0]] + rest[0]] + rest[1..]
  }

  /** `parts.join(sep)`. */
  function Join(parts: seq<string>, sep: string): string
  {
    if |parts| == 0 then ""
    else if |parts| == 1 then parts[0]
    else parts[0] + sep + Join(parts[1..], sep)
  }

  /** The non-empty elements of `parts`, in order (`.filter(|s| !s.is_empty())`). */
  function NonEmpty(parts: seq<string>): (r: seq<string>)
    ensures forall i :: 0 <= i < |r| ==> r[i] != ""
    ensures |r| <= |parts|
  {
    if parts == [] then []
    else (if parts[0] == "" then [] else [parts[0]]) + NonEmpty(parts[1..])
  }

  /** Every occurrence of `c` in `s` replaced by `by` (`s.replace(c, repl)`). */
  function Replace(s: string, c: char, repl: string): string
  {
    if s == [] then ""
    else (if s[0] == c then repl else [s[0]]) + Replace(s[1..], c, repl)
  }

  /** Number of occurrences of `c` in `s`. */
  function Count(s: string, c: char): nat
  {
    if s == [] then 0 else (if s[0] == c then 1 else 0) + Count(s[1..], c)
  }

  /** The images of the elements under `f`, concatenated in order. */
  function ConcatMap<T>(f: T -> string, s: seq<T>): string
  {
    if s == [] then "" else ConcatMap(f, s[..|s| - 1]) + f(s[|s| - 1])
  }

  /** The images of the elements under `f`, in order. */
  function MapSeq<T, U>(f: T -> U, s: seq<T>): (r: seq<U>)
    ensures |r| == |s|
  {
    if s == [] then [] else MapSeq(f, s[..|s| - 1]) + [f(s[|s| - 1])]
  }

  /** The `len` characters of `s` starting at `from`. */
  function Window(s: string, from: nat, len: nat): string
    requires from + len <= |s|
  {
    s[from..from + len]
  }

  /** `needle` occurs as a contiguous piece of `haystack`. */
  ghost predicate Contains(haystack: string, needle: string)
  {
    exists i: nat :: i + |needle| <= |haystack| && Window(haystack, i, |needle|) == needle
  }

  /** One line of `lines()`: a trailing carriage return (of a "\r\n" ending) removed. */
  function StripCr(piece: string): string
  {
    if |piece| > 0 && piece[|piece| - 1] == '\r' then piece[..|piece| - 1] else piece
  }

  /**
   * Rust's `str::lines()`: lines end at "\n" or "\r\n"; the final line ending is
   * optional, so a trailing "\n" does not produce an empty last line.
   */
  function Lines(s: string): (r: seq<string>)
    ensures forall i :: 0 <= i < |r| ==> '\n' !in r[i]
  {
    var pieces := Split(s, '\n');
    var n := |pieces| - 1;
    var ended := seq(n, i requires 0 <= i < n => StripCr(pieces[i]));
    assert forall i :: 0 <= i < n ==> '\n' !in ended[i] by {
      forall i | 0 <= i < n ensures '\n' !in ended[i] {
        assert '\n' !in pieces[i];
      }
    }
    ended + (if pieces[n] == "" then [] else [pieces[n]])
  }

  /** Decimal digits of `n`, as `format!("{}", n)` writes a `usize`. */
  function NatToString(n: nat): (r: string)
    ensures |r| > 0
    ensures forall i :: 0 <= i < |r| ==> '0' <= r[i] <= '9'
  {
    var d := ['0' + ((n % 10) as char)];
    if n < 10 then d else NatToString(n / 10) + d
  }

  // ---------------------------------------------------------------------------
  // Split and Join are inverse to each other on separator-free pieces.

  lemma {:induction false} SplitNoSeparator(p: string, sep: char)
    requires sep !in p
    ensures Split(p, sep) == [p]
    decreases |p|
  {
    if p != [] {
      assert p[0] != sep;
      SplitNoSeparator(p[1..], sep);
      assert [p[0]] + p[1..] == p;
    }
  }

  lemma {:induction false} SplitAfterPiece(p: string, sep: char, rest: string)
    requires sep !in p
    ensures Split(p + [sep] + rest, sep) == [p] + Split(rest, sep)
    decreases |p|
  {
    var s := p + [sep] + rest;
    if p == [] {
      assert s[0] == sep && s[1..] == rest;
    } else {
      assert s[0] == p[0] && s[1..] == p[1..] + [sep] + rest;
      SplitAfterPiece(p[1..], sep, rest);
      assert [p[0]] + p[1..] == p;
    }
  }

  /** Splitting a join of separator-free pieces gives the pieces back. */
  lemma {:induction false} SplitJoin(parts: seq<string>, sep: char)
    requires |parts| > 0
    requires forall i :: 0 <= i < |parts| ==> sep !in parts[i]
    ensures Split(Join(parts, [sep]), sep) == parts
    decreases |parts|
  {
    if |parts| == 1 {
      SplitNoSeparator(parts[0], sep);
    } else {
      SplitJoin(parts[1..], sep);
      SplitAfterPiece(parts[0], sep, Join(parts[1..], [sep]));
      assert parts == [parts[0]] + parts[1..];
    }
  }

  lemma {:induction false} NonEmptyKeepsNonEmpty(parts: seq<string>)
    requires forall i :: 0 <= i < |parts| ==> parts[i] != ""
    ensures NonEmpty(parts) == parts
  {
    if parts != [] {
      NonEmptyKeepsNonEmpty(parts[1..]);
    }
  }

  /** The filter keeps exactly the non-empty elements. */
  lemma {:induction false} NonEmptyMembers(parts: seq<string>)
    ensures forall x :: x in NonEmpty(parts) <==> x in parts && x != ""
  {
    if parts != [] {
      NonEmptyMembers(parts[1..]);
      assert parts == [parts[0]] + parts[1..];
    }
  }

  lemma {:induction false} NonEmptyKeepsAbsent(parts: seq<string>, c: char)
    requires forall i :: 0 <= i < |parts| ==> c !in parts[i]
    ensures forall i :: 0 <= i < |NonEmpty(parts)| ==> c !in NonEmpty(parts)[i]
  {
    if parts != [] {
      NonEmptyKeepsAbsent(parts[1..], c);
    }
  }

  /** A character that occurs in no piece and not in the separator does not occur in the join. */
  lemma {:induction false} JoinAvoids(parts: seq<string>, sep: string, c: char)
    requires c !in sep
    requires forall i :: 0 <= i < |parts| ==> c !in parts[i]
    ensures c !in Join(parts, sep)
  {
    if |parts| > 1 {
      JoinAvoids(parts[1..], sep, c);
    }
  }

  // ---------------------------------------------------------------------------
  // Replace.

  lemma {:induction false} ReplaceAppend(a: string, b: string, c: char, repl: string)
    ensures Replace(a + b, c, repl) == Replace(a, c, repl) + Replace(b, c, repl)
  {
    if a != [] {
      assert (a + b)[1..] == a[1..] + b;
      ReplaceAppend(a[1..], b, c, repl);
    } else {
      assert a + b == b;
    }
  }

  lemma {:induction false} ReplaceAbsent(s: string, c: char, repl: string)
    requires c !in s
    ensures Replace(s, c, repl) == s
  {
    if s != [] {
      ReplaceAbsent(s[1..], c, repl);
    }
  }

  lemma {:induction false} ConcatMapAppend<T>(f: T -> string, a: seq<T>, b: seq<T>)
    ensures ConcatMap(f, a + b) == ConcatMap(f, a) + ConcatMap(f, b)
  {
    if b != [] {
      var n := |b| - 1;
      assert (a + b)[..|a + b| - 1] == a + b[..n];
      assert (a + b)[|a + b| - 1] == b[n];
      ConcatMapAppend(f, a, b[..n]);
    } else {
      assert a + b == a;
    }
  }

  lemma {:induction false} MapSeqEach<T, U>(f: T -> U, s: seq<T>)
    ensures forall k :: 0 <= k < |s| ==> MapSeq(f, s)[k] == f(s[k])
  {
    if s != [] {
      var n := |s| - 1;
      MapSeqEach(f, s[..n]);
      assert MapSeq(f, s) == MapSeq(f, s[..n]) + [f(s[n])];
    }
  }

  /** Wrapping a wrapped string: the two openings and the two closings group together. */
  lemma Rewrap(open: string, innerOpen: string, s: string, innerClose: string, close: string)
    ensures open + (innerOpen + s + innerClose) + close == (open + innerOpen) + s + (innerClose + close)
  {
  }

  lemma ConcatMapTwo<T>(f: T -> string, x: T, y: T)
    ensures ConcatMap(f, [x]) == f(x)
    ensures ConcatMap(f, [x, y]) == f(x) + f(y)
  {
    assert [x, y][..1] == [x] && [x][..0] == [];
  }

  lemma ContainsMiddle(a: string, b: string, c: string)
    ensures Contains(a + b + c, b)
  {
    assert Window(a + b + c, |a|, |b|) == b;
  }
}
