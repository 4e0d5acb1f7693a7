/** String operations with the meaning Python gives them, and the facts about
    joining and splitting that the output formats rest on. */
module Strings {

  /** `s[:n]`: the first `n` characters, or all but the last `-n` when `n` is negative. */
  function SliceTo(s: string, n: int): (r: string)
    ensures r <= s
    ensures n >= 0 ==> |r| == (if n < |s| then n else |s|)
    ensures n < 0 ==> |r| == (if |s| + n > 0 then |s| + n else 0)
  {
    if n >= 0 then (if n < |s| then s[..n] else s)
    else if |s| + n > 0 then s[..|s| + n]
    else ""
  }

  /** `sep.join(parts)`. */
  function Join(parts: seq<string>, sep: string): string
    decreases |parts|
  {
    if |parts| == 0 then ""
    else if |parts| == 1 then parts[0]
    else parts[0] + sep + Join(parts[1..], sep)
  }

  /** The strings one after another, as repeated `+=` builds them. */
  function Concat(ss: seq<string>): string
    decreases |ss|
  {
    if |ss| == 0 then "" else ss[0] + Concat(ss[1..])
  }

  /** `s.split(c)` for a one-character separator: the pieces between separators,
      empty pieces included, so there is always one more piece than separators. */
  function Split(s: string, c: char): (pieces: seq<string>)
    ensures |pieces| >= 1
    ensures forall i :: 0 <= i < |pieces| ==> c !in pieces[i]
    decreases |s|
  {
    if |s| == 0 then [""]
    else
      var rest := Split(s[1..], c);
      if s[0] == c then [""] + rest else [[s[0]] + rest[0]] + rest[1..]
  }

  /** `s.count(c)` for one character. */
  function Occurrences(s: string, c: char): (n: nat)
    ensures n <= |s|
    ensures n == 0 <==> c !in s
    decreases |s|
  {
    if |s| == 0 then 0
    else (if s[0] == c then 1 else 0) + Occurrences(s[1..], c)
  }

  /** `q` occurs in `s` starting at index `i`. */
  predicate OccursAt(s: string, q: string, i: int)
  {
    0 <= i && i + |q| <= |s| && s[i..i + |q|] == q
  }

  /** `s.find(q, start)`: the lowest index from `start` on at which `q` occurs, or -1. */
  function FindFrom(s: string, q: string, start: nat): (r: int)
    ensures r == -1 || (start <= r && OccursAt(s, q, r))
    ensures r == -1 ==> forall i :: start <= i ==> !OccursAt(s, q, i)
    ensures r >= 0 ==> forall i :: start <= i < r ==> !OccursAt(s, q, i)
    decreases |s| - start
  {
    if start + |q| > |s| then -1
    else if s[start..start + |q|] == q then start
    else FindFrom(s, q, start + 1)
  }

  /** `s.find(q)`. */
  function Find(s: string, q: string): (r: int)
    ensures r == -1 || OccursAt(s, q, r)
    ensures r == -1 <==> forall i :: !OccursAt(s, q, i)
    ensures forall i :: 0 <= i < r ==> !OccursAt(s, q, i)
  {
    FindFrom(s, q, 0)
  }

  /** Python's `q in s` on strings: a literal, case-sensitive substring test. */
  predicate Contains(s: string, q: string)
  {
    Find(s, q) != -1
  }

  /** The empty string is a substring of every string. */
  lemma ContainsEmpty(s: string)
    ensures Contains(s, "")
  {
    assert OccursAt(s, "", 0);
  }

  /** A character is in `s` exactly when the one-character string is a substring of `s`. */
  lemma ContainsChar(s: string, c: char)
    ensures Contains(s, [c]) <==> c in s
  {
    if c in s {
      var i :| 0 <= i < |s| && s[i] == c;
      assert s[i..i + 1] == [c];
      assert OccursAt(s, [c], i);
    }
    if Contains(s, [c]) {
      var i := Find(s, [c]);
      assert s[i..i + 1] == [c];
      assert s[i] == c;
    }
  }

  lemma {:induction false} OccurrencesConcat(a: string, b: string, c: char)
    ensures Occurrences(a + b, c) == Occurrences(a, c) + Occurrences(b, c)
    decreases |a|
  {
    if |a| == 0 {
      assert a + b == b;
    } else {
      assert (a + b)[1..] == a[1..] + b;
      OccurrencesConcat(a[1..], b, c);
    }
  }

  /** A character found in no part and not in the separator is not in the join. */
  lemma {:induction false} JoinAvoids(parts: seq<string>, sep: string, c: char)
    requires forall i :: 0 <= i < |parts| ==> c !in parts[i]
    requires c !in sep
    ensures c !in Join(parts, sep)
    decreases |parts|
  {
    if |parts| > 1 {
      JoinAvoids(parts[1..], sep, c);
    }
  }

  /** Joining with a one-character separator found in no part adds exactly one
      separator between each pair of neighbours. */
  lemma {:induction false} JoinSeparatorCount(parts: seq<string>, c: char)
    requires |parts| >= 1
    requires forall i :: 0 <= i < |parts| ==> c !in parts[i]
    ensures Occurrences(Join(parts, [c]), c) == |parts| - 1
    decreases |parts|
  {
    if |parts| > 1 {
      JoinSeparatorCount(parts[1..], c);
      var rest := Join(parts[1..], [c]);
      OccurrencesConcat(parts[0], [c] + rest, c);
      OccurrencesConcat([c], rest, c);
      assert parts[0] + [c] + rest == parts[0] + ([c] + rest);
    }
  }

  /** The join ends with the last part. */
  lemma {:induction false} JoinEndsWithLast(parts: seq<string>, sep: string)
    requires |parts| >= 1
    ensures |parts[|parts| - 1]| <= |Join(parts, sep)|
    ensures Join(parts, sep)[|Join(parts, sep)| - |parts[|parts| - 1]|..] == parts[|parts| - 1]
    decreases |parts|
  {
    if |parts| > 1 {
      JoinEndsWithLast(parts[1..], sep);
      var rest := Join(parts[1..], sep);
      var last := parts[|parts| - 1];
      assert parts[1..][|parts[1..]| - 1] == last;
      var whole := parts[0] + sep + rest;
      assert whole[|whole| - |last|..] == rest[|rest| - |last|..];
    }
  }

  lemma {:induction false} SplitPlain(x: string, c: char)
    requires c !in x
    ensures Split(x, c) == [x]
    decreases |x|
  {
    if |x| > 0 {
      SplitPlain(x[1..], c);
      assert [x[0]] + x[1..] == x;
    }
  }

  /** Splitting at the first separator: the piece before it, then the pieces after it. */
  lemma {:induction false} SplitAtSeparator(x: string, y: string, c: char)
    requires c !in x
    ensures Split(x + [c] + y, c) == [x] + Split(y, c)
    decreases |x|
  {
    var s := x + [c] + y;
    if |x| == 0 {
      assert s == [c] + y;
      assert s[1..] == y;
    } else {
      assert s[0] == x[0];
      assert s[1..] == x[1..] + [c] + y;
      SplitAtSeparator(x[1..], y, c);
      assert [x[0]] + x[1..] == x;
    }
  }

  /** Splitting undoes joining, when no part holds the separator. */
  lemma {:induction false} SplitJoin(parts: seq<string>, c: char)
    requires |parts| >= 1
    requires forall i :: 0 <= i < |parts| ==> c !in parts[i]
    ensures Split(Join(parts, [c]), c) == parts
    decreases |parts|
  {
    if |parts| == 1 {
      SplitPlain(parts[0], c);
    } else {
      SplitJoin(parts[1..], c);
      SplitAtSeparator(parts[0], Join(parts[1..], [c]), c);
      assert [parts[0]] + parts[1..] == parts;
    }
  }

  /** The pieces of one more line: its body first, then the pieces of the rest. */
  lemma ConsPieces(body: string, rest: seq<string>, lines: seq<string>, c: char)
    requires |lines| > 0 && lines[0] == body + [c]
    requires |rest| == |lines| && rest[|lines| - 1] == ""
    requires forall i :: 0 <= i < |lines| - 1 ==> rest[i] + [c] == lines[i + 1]
    ensures |[body] + rest| == |lines| + 1 && ([body] + rest)[|lines|] == ""
    ensures forall i :: 0 <= i < |lines| ==> ([body] + rest)[i] + [c] == lines[i]
  {
    forall i | 0 <= i < |lines|
      ensures ([body] + rest)[i] + [c] == lines[i]
    {
      if i > 0 {
        assert ([body] + rest)[i] == rest[i - 1];
      }
    }
  }

  /** One line ending in `c`, with no other `c`, holds exactly one `c`. */
  lemma OccurrencesOfLine(body: string, rest: string, c: char)
    requires c !in body
    ensures Occurrences(body + [c] + rest, c) == 1 + Occurrences(rest, c)
  {
    OccurrencesConcat(body + [c], rest, c);
    OccurrencesConcat(body, [c], c);
  }

  /** Every line ends in `c` and holds no other `c`. */
  predicate Terminated(lines: seq<string>, c: char)
  {
    forall i :: 0 <= i < |lines| ==>
      |lines[i]| >= 1 && lines[i][|lines[i]| - 1] == c && c !in lines[i][..|lines[i]| - 1]
  }

  /** `text` splits at `c` into the bodies of `lines`, followed by one empty
      piece, and holds one `c` per line. */
  predicate SplitsInto(text: string, lines: seq<string>, c: char)
  {
    && |Split(text, c)| == |lines| + 1
    && Split(text, c)[|lines|] == ""
    && (forall i :: 0 <= i < |lines| ==> Split(text, c)[i] + [c] == lines[i])
    && Occurrences(text, c) == |lines|
  }

  /** One more line in front of lines that split back into their bodies. */
  lemma SplitLinesStep(lines: seq<string>, c: char)
    requires |lines| > 0
    requires |lines[0]| >= 1 && lines[0][|lines[0]| - 1] == c && c !in lines[0][..|lines[0]| - 1]
    requires SplitsInto(Concat(lines[1..]), lines[1..], c)
    ensures SplitsInto(Concat(lines), lines, c)
  {
    var rest := Concat(lines[1..]);
    var body := lines[0][..|lines[0]| - 1];
    assert lines[0] == body + [c];
    assert Concat(lines) == body + [c] + rest;
    SplitAtSeparator(body, rest, c);
    OccurrencesOfLine(body, rest, c);
    ConsPieces(body, Split(rest, c), lines, c);
  }

  /** Terminated lines stay terminated without the first, which ends in `c`. */
  lemma TerminatedTail(lines: seq<string>, c: char)
    requires |lines| > 0 && Terminated(lines, c)
    ensures |lines[0]| >= 1 && lines[0][|lines[0]| - 1] == c && c !in lines[0][..|lines[0]| - 1]
    ensures Terminated(lines[1..], c)
  {
    forall i | 0 <= i < |lines[1..]|
      ensures |lines[1..][i]| >= 1 && lines[1..][i][|lines[1..][i]| - 1] == c
      ensures c !in lines[1..][i][..|lines[1..][i]| - 1]
    {
      assert lines[1..][i] == lines[i + 1];
    }
  }

  /** A concatenation of lines, each ending in `c` and holding no other `c`, splits
      back into those lines without their terminators, followed by one empty piece. */
  lemma {:induction false} SplitLines(lines: seq<string>, c: char)
    requires Terminated(lines, c)
    ensures SplitsInto(Concat(lines), lines, c)
    decreases |lines|
  {
    if |lines| > 0 {
      TerminatedTail(lines, c);
      SplitLines(lines[1..], c);
      SplitLinesStep(lines, c);
    }
  }
}
