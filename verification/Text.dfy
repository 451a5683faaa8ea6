/** Cutting text at a separator, decimal numbers, and Python's searches and order of strings. */
module Text {

  /** The pieces of a text between the separators; one piece when there is none. */
  function Split(text: string, sep: char): (pieces: seq<string>)
    ensures |pieces| >= 1
  {
    if text == "" then [""] else WithChar(Split(text[..|text| - 1], sep), text[|text| - 1], sep)
  }

  function WithChar(pieces: seq<string>, c: char, sep: char): seq<string>
    requires |pieces| >= 1
  {
    if c == sep then pieces + [""]
    else pieces[..|pieces| - 1] + [pieces[|pieces| - 1] + [c]]
  }

  lemma SplitPlus(s: string, c: char, sep: char)
    ensures Split(s + [c], sep) == WithChar(Split(s, sep), c, sep)
  {
    assert (s + [c])[..|s|] == s;
  }

  lemma WithCharTail(first: seq<string>, rest: seq<string>, c: char, sep: char)
    requires |rest| >= 1
    ensures WithChar(first + rest, c, sep) == first + WithChar(rest, c, sep)
  {}

  /** The text is empty or ends in the separator. */
  predicate AtBoundary(text: string, sep: char) {
    text == "" || text[|text| - 1] == sep
  }

  lemma BoundaryPiece(a: string, sep: char)
    requires AtBoundary(a, sep)
    ensures Split(a, sep)[..|Split(a, sep)| - 1] + [""] == Split(a, sep)
  {}

  lemma {:induction false} SplitAtBoundary(a: string, b: string, sep: char)
    requires AtBoundary(a, sep)
    ensures Split(a + b, sep) == Split(a, sep)[..|Split(a, sep)| - 1] + Split(b, sep)
  {
    var first := Split(a, sep)[..|Split(a, sep)| - 1];
    if b == "" {
      assert a + b == a;
      BoundaryPiece(a, sep);
    } else {
      var b', c := b[..|b| - 1], b[|b| - 1];
      assert b == b' + [c] && a + b == (a + b') + [c];
      SplitAtBoundary(a, b', sep);
      SplitPlus(b', c, sep);
      SplitPlus(a + b', c, sep);
      WithCharTail(first, Split(b', sep), c, sep);
    }
  }

  lemma {:induction false} SplitOnePiece(text: string, sep: char)
    requires sep !in text
    ensures Split(text, sep) == [text]
  {
    if text != "" {
      SplitOnePiece(text[..|text| - 1], sep);
      assert text[..|text| - 1] + [text[|text| - 1]] == text;
    }
  }

  /** A first piece without separators, then the rest. */
  lemma SplitFirst(piece: string, rest: string, sep: char)
    requires sep !in piece
    ensures Split(piece + ([sep] + rest), sep) == [piece] + Split(rest, sep)
  {
    var a := piece + [sep];
    SplitOnePiece(piece, sep);
    SplitPlus(piece, sep, sep);
    SplitAtBoundary(a, rest, sep);
    assert a + rest == piece + ([sep] + rest);
    assert Split(a, sep) == [piece, ""];
  }

  // ---------- decimal numbers ----------

  function Digit(d: nat): char
    requires d < 10
  {
    '0' + d as char
  }

  predicate IsDigit(c: char) {
    '0' <= c <= '9'
  }

  /** What `%d` prints for a natural number. */
  function Decimal(n: nat): (s: string)
    ensures s != "" && forall c :: c in s ==> IsDigit(c)
    ensures (|s| > 1 ==> s[0] != '0') && (n > 0 ==> s[0] != '0')
  {
    if n < 10 then [Digit(n)] else Decimal(n / 10) + [Digit(n % 10)]
  }

  /** The number a string of digits stands for. */
  function Value(s: string): nat
    requires forall c :: c in s ==> IsDigit(c)
  {
    if s == "" then 0
    else
      var last := s[|s| - 1];
      assert last in s && IsDigit(last);
      10 * Value(s[..|s| - 1]) + (last as int - '0' as int)
  }

  lemma {:induction false} DecimalValue(n: nat)
    ensures Value(Decimal(n)) == n
  {
    var s := Decimal(n);
    if n >= 10 {
      DecimalValue(n / 10);
      assert s[..|s| - 1] == Decimal(n / 10);
    } else {
      assert s[..0] == "";
    }
  }

  // ---------- Python's string searches ----------

  predicate Occurs(text: string, key: string, i: nat) {
    i + |key| <= |text| && text[i..i + |key|] == key
  }

  /** str.find: the first occurrence at or after `start`, or -1. */
  function Find(text: string, key: string, start: nat): (at: int)
    ensures -1 <= at
    ensures at >= 0 ==> start <= at && Occurs(text, key, at) && forall i :: start <= i < at ==> !Occurs(text, key, i)
    ensures at < 0 ==> forall i :: start <= i ==> !Occurs(text, key, i)
    decreases |text| - start
  {
    if start + |key| > |text| then -1
    else if Occurs(text, key, start) then start
    else if start == |text| then -1
    else Find(text, key, start + 1)
  }

  // ---------- Python's order of strings ----------

  /** Python's order of strings, by code points. */
  predicate TextLeq(a: string, b: string) {
    a == "" || (b != "" && (a[0] < b[0] || (a[0] == b[0] && TextLeq(a[1..], b[1..]))))
  }

  /** One is the other's beginning, or has the smaller character where they first differ. */
  ghost predicate InDictionaryOrder(a: string, b: string) {
    a <= b || exists k: nat :: FirstDiffer(a, b, k) && a[k] < b[k]
  }

  predicate FirstDiffer(a: string, b: string, k: nat) {
    k < |a| && k < |b| && a[..k] == b[..k] && a[k] != b[k]
  }

  lemma {:induction false} TextLeqMeans(a: string, b: string)
    ensures TextLeq(a, b) <==> InDictionaryOrder(a, b)
  {
    if a != "" && b != "" {
      if a[0] == b[0] {
        TextLeqMeans(a[1..], b[1..]);
        OrderOfRests(a, b);
      } else {
        DifferAtOnce(a, b);
      }
    }
  }

  lemma DifferAtOnce(a: string, b: string)
    requires a != "" && b != "" && a[0] != b[0]
    ensures InDictionaryOrder(a, b) <==> a[0] < b[0]
  {
    assert FirstDiffer(a, b, 0);
    forall k: nat | 0 < k < |a| && k < |b| ensures a[..k] != b[..k] {
      assert a[..k][0] == a[0] && b[..k][0] == b[0];
    }
  }

  lemma OrderOfRests(a: string, b: string)
    requires a != "" && b != "" && a[0] == b[0]
    ensures InDictionaryOrder(a, b) <==> InDictionaryOrder(a[1..], b[1..])
  {
    var s, t := a[1..], b[1..];
    assert a == [a[0]] + s && b == [b[0]] + t;
    if k: nat :| FirstDiffer(s, t, k) && s[k] < t[k] {
      DifferLater(a, b, k);
      assert a[k + 1] < b[k + 1];
    }
    if k: nat :| FirstDiffer(a, b, k) && a[k] < b[k] {
      DifferLater(a, b, k - 1);
      assert s[k - 1] < t[k - 1];
    }
  }

  lemma DifferLater(a: string, b: string, k: nat)
    requires a != "" && b != "" && a[0] == b[0]
    ensures FirstDiffer(a, b, k + 1) <==> FirstDiffer(a[1..], b[1..], k)
  {
    if k + 1 < |a| && k + 1 < |b| {
      assert a[..k + 1] == [a[0]] + a[1..][..k] && b[..k + 1] == [b[0]] + b[1..][..k];
      assert a[..k + 1][1..] == a[1..][..k] && b[..k + 1][1..] == b[1..][..k];
    }
  }

  lemma {:induction false} TextTotal(a: string, b: string)
    ensures TextLeq(a, b) || TextLeq(b, a)
    ensures TextLeq(a, b) && TextLeq(b, a) ==> a == b
  {
    if a != "" && b != "" {
      TextTotal(a[1..], b[1..]);
      assert a == [a[0]] + a[1..] && b == [b[0]] + b[1..];
    }
  }

  lemma {:induction false} TextTransitive(a: string, b: string, c: string)
    requires TextLeq(a, b) && TextLeq(b, c)
    ensures TextLeq(a, c)
  {
    if a != "" && b != "" && c != "" && a[0] == b[0] == c[0] {
      TextTransitive(a[1..], b[1..], c[1..]);
    }
  }
}
