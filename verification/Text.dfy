/** String plumbing shared by the models: splitting and joining on a one-character
    separator, reading decimal numbers, and the uniqueness of a cut at a separator. */
module Text {

  datatype Option<+T> = None | Some(value: T)

  /** Python's `s.split(sep)` for a one-character separator. */
  function Split(s: string, sep: char): (rows: seq<string>)
    ensures |rows| >= 1
    ensures forall r | r in rows :: sep !in r
  {
    if s == [] then [[]]
    else
      var rest := Split(s[1..], sep);
      if s[0] == sep then [[]] + rest else [[s[0]] + rest[0]] + rest[1..]
  }

  /** Python's `sep.join(rows)`. */
  function Join(rows: seq<string>, sep: char): string
  {
    if |rows| == 0 then []
    else if |rows| == 1 then rows[0]
    else rows[0] + [sep] + Join(rows[1..], sep)
  }

  lemma {:induction false} JoinOfSplit(s: string, sep: char)
    ensures Join(Split(s, sep), sep) == s
  {
    if s != [] {
      JoinOfSplit(s[1..], sep);
      var rest := Split(s[1..], sep);
      if s[0] == sep {
        assert ([[]] + rest)[1..] == rest;
      } else {
        assert ([[s[0]] + rest[0]] + rest[1..])[1..] == rest[1..];
      }
    }
  }

  lemma {:induction false} SplitOfRow(row: string, sep: char)
    requires sep !in row
    ensures Split(row, sep) == [row]
  {
    if row != [] {
      SplitOfRow(row[1..], sep);
      assert row == [row[0]] + row[1..];
    }
  }

  lemma {:induction false} SplitAtSeparator(row: string, rest: string, sep: char)
    requires sep !in row
    ensures Split(row + [sep] + rest, sep) == [row] + Split(rest, sep)
  {
    var s := row + [sep] + rest;
    if row == [] {
      assert s[1..] == rest;
    } else {
      SplitAtSeparator(row[1..], rest, sep);
      assert s[1..] == row[1..] + [sep] + rest;
      assert row == [row[0]] + row[1..];
    }
  }

  lemma {:induction false} SplitOfJoin(rows: seq<string>, sep: char)
    requires |rows| >= 1
    requires forall r | r in rows :: sep !in r
    ensures Split(Join(rows, sep), sep) == rows
  {
    if |rows| == 1 {
      SplitOfRow(rows[0], sep);
    } else {
      SplitOfJoin(rows[1..], sep);
      SplitAtSeparator(rows[0], Join(rows[1..], sep), sep);
    }
  }

  /** Two strings cut at their first separator are equal only piece by piece. */
  lemma {:induction false} CutIsUnique(x: string, u: string, y: string, v: string, sep: char)
    requires sep !in x && sep !in y
    requires x + [sep] + u == y + [sep] + v
    ensures x == y && u == v
  {
    SplitAtSeparator(x, u, sep);
    SplitAtSeparator(y, v, sep);
    assert x == Split(x + [sep] + u, sep)[0] == y;
    var s := x + [sep] + u;
    assert s[|x| + 1..] == u;
    assert (y + [sep] + v)[|x| + 1..] == v;
  }

  lemma DropCat<T>(a: seq<T>, b: seq<T>, n: nat)
    requires n <= |a|
    ensures (a + b)[n..] == a[n..] + b
  {
  }

  lemma DropDrop<T>(a: seq<T>, i: nat, j: nat)
    requires i + j <= |a|
    ensures a[i..][j..] == a[i + j..]
  {
  }

  lemma PrependCat<T>(head: T, x: seq<T>, y: seq<T>, xs: seq<T>, all: seq<T>)
    requires xs == [head] + x && all == [head] + (x + y)
    ensures all == xs + y
  {
  }

  lemma CatEmpty<T>(a: seq<T>)
    ensures a + [] == a
  {
  }

  lemma CatAssociates<T>(a: seq<T>, b: seq<T>, c: seq<T>)
    ensures (a + b) + c == a + (b + c)
  {
  }

  // ----- subsequences by position

  /** `ys` is what stands in `xs` at the positions `at`, in order. */
  predicate Picks<T(==)>(xs: seq<T>, at: seq<nat>, ys: seq<T>) {
    && |at| == |ys|
    && (forall i, j | 0 <= i < j < |at| :: at[i] < at[j])
    && forall k | 0 <= k < |at| :: at[k] < |xs| && ys[k] == xs[at[k]]
  }

  /** One element more, picked or not. */
  lemma PickNext<T>(xs: seq<T>, at: seq<nat>, ys: seq<T>, x: T, picked: bool) returns (at': seq<nat>)
    requires Picks(xs, at, ys)
    ensures Picks(xs + [x], at', ys + if picked then [x] else [])
    ensures forall i: nat :: i in at' <==> i in at || (picked && i == |xs|)
  {
    at' := if picked then at + [|xs|] else at;
    CatEmpty(ys);
    assert forall k | 0 <= k < |at| :: (xs + [x])[at[k]] == xs[at[k]];
  }

  // ----- stripping white space, given what counts as white space

  function StripLeft(s: string, space: char -> bool): string {
    if s != [] && space(s[0]) then StripLeft(s[1..], space) else s
  }

  function StripRight(s: string, space: char -> bool): string {
    if s != [] && space(s[|s| - 1]) then StripRight(s[..|s| - 1], space) else s
  }

  // ----- characters

  const ESC: char := '\U{001B}'

  /** Does `text` stand at position k of `plain`? */
  predicate OccursAt(plain: string, text: string, k: nat) {
    k + |text| <= |plain| && plain[k..k + |text|] == text
  }

  predicate NoEsc(s: string) { forall k | 0 <= k < |s| :: s[k] != ESC }

  predicate NoNewlines(lines: seq<string>) { forall k | 0 <= k < |lines| :: '\n' !in lines[k] }

  predicate Letter(c: char) { 'A' <= c <= 'Z' || 'a' <= c <= 'z' }

  // ----- decimal numbers

  predicate IsDigit(c: char) { '0' <= c <= '9' }

  predicate Digits(s: string) { forall k | 0 <= k < |s| :: IsDigit(s[k]) }

  function DigitChar(d: nat): (c: char)
    requires d < 10
    ensures IsDigit(c)
  {
    ('0' as int + d) as char
  }

  /** Python's `str(n)` for a non-negative integer. */
  function Decimal(n: nat): (s: string)
    ensures |s| >= 1
    ensures Digits(s)
  {
    if n < 10 then [DigitChar(n)] else Decimal(n / 10) + [DigitChar(n % 10)]
  }

  /** Python's `int(s)` for a string of ASCII digits. */
  function Value(s: string): nat
    requires Digits(s)
  {
    if s == [] then 0
    else
      assert IsDigit(s[|s| - 1]);
      10 * Value(s[..|s| - 1]) + (s[|s| - 1] as int - '0' as int)
  }

  lemma {:induction false} ValueOfDecimal(n: nat)
    ensures Value(Decimal(n)) == n
  {
    if n < 10 {
      assert Decimal(n)[..0] == [];
    } else {
      ValueOfDecimal(n / 10);
      assert Decimal(n)[..|Decimal(n)| - 1] == Decimal(n / 10);
    }
  }

  lemma DecimalInjective(m: nat, n: nat)
    requires Decimal(m) == Decimal(n)
    ensures m == n
  {
    ValueOfDecimal(m);
    ValueOfDecimal(n);
  }

  // ----- leading runs of a character class

  /** How many leading characters of `s` satisfy `ok`: a greedy `[class]*`. */
  function RunLength(s: string, ok: char -> bool): (n: nat)
    ensures n <= |s|
    ensures forall i | 0 <= i < n :: ok(s[i])
    ensures n < |s| ==> !ok(s[n])
  {
    if s == [] || !ok(s[0]) then 0 else 1 + RunLength(s[1..], ok)
  }

  lemma RunLengthIs(s: string, ok: char -> bool, n: nat)
    requires n <= |s|
    requires forall i | 0 <= i < n :: ok(s[i])
    requires n < |s| ==> !ok(s[n])
    ensures RunLength(s, ok) == n
  {
  }
}
