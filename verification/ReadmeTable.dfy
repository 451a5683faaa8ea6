/** gen_bc_readme.py: the rows of the generated table and their order. */
module ReadmeTable {
  import opened Wrappers
  import opened Text
  import opened Sorting

  // ---------- escaping and truncation ----------

  /** s.replace("|", "\\|"). */
  function Escape(s: string): string {
    if s == "" then ""
    else Escape(s[..|s| - 1]) + if s[|s| - 1] == '|' then "\\|" else [s[|s| - 1]]
  }

  function Truncate(s: string, n: nat): string {
    if |s| <= n then s else s[..n]
  }

  /** The pipes of a text that no backslash precedes; `before` is the character in front of it. */
  function Pipes(before: char, s: string): nat {
    if s == "" then 0
    else Pipes(before, s[..|s| - 1]) + if s[|s| - 1] == '|' && LastChar(before, s[..|s| - 1]) != '\\' then 1 else 0
  }

  function LastChar(before: char, s: string): char {
    if s == "" then before else s[|s| - 1]
  }

  lemma {:induction false} PipesConcat(before: char, a: string, b: string)
    ensures Pipes(before, a + b) == Pipes(before, a) + Pipes(LastChar(before, a), b)
  {
    if b == "" {
      assert a + b == a;
    } else {
      var b' := b[..|b| - 1];
      PipesConcat(before, a, b');
      assert (a + b)[..|a + b| - 1] == a + b';
    }
  }

  /** Every pipe has a backslash in front of it. */
  predicate AllEscaped(s: string) {
    forall i :: 0 <= i < |s| && s[i] == '|' ==> i > 0 && s[i - 1] == '\\'
  }

  lemma {:induction false} EscapeEscapes(s: string)
    ensures AllEscaped(Escape(s))
  {
    if s != "" {
      EscapeEscapes(s[..|s| - 1]);
    }
  }

  lemma {:induction false} EscapedHasNone(before: char, s: string)
    requires AllEscaped(s)
    ensures Pipes(before, s) == 0
  {
    if s != "" {
      EscapedHasNone(before, s[..|s| - 1]);
    }
  }

  /** A cell never contributes a pipe, even when truncation cuts an escape in half. */
  lemma CellHasNone(before: char, text: string, n: nat)
    ensures Pipes(before, Truncate(Escape(text), n)) == 0
  {
    EscapeEscapes(text);
    EscapedHasNone(before, Truncate(Escape(text), n));
  }

  /** The text with the character in front of every pipe taken out. */
  function Unescape(s: string): string {
    if s == "" then ""
    else if s[|s| - 1] == '|' && |s| >= 2 then Unescape(s[..|s| - 2]) + "|"
    else Unescape(s[..|s| - 1]) + [s[|s| - 1]]
  }

  /** Every pipe has a backslash in front of it, and without these backslashes it is the text. */
  ghost predicate IsEscaped(s: string, escaped: string) {
    AllEscaped(escaped) && Unescape(escaped) == s
  }

  lemma {:induction false} EscapeComesOut(s: string)
    ensures IsEscaped(s, Escape(s))
  {
    EscapeEscapes(s);
    if s != "" {
      var rest, c := s[..|s| - 1], s[|s| - 1];
      EscapeComesOut(rest);
      assert s == rest + [c];
      if c == '|' {
        assert Escape(s) == Escape(rest) + "\\|";
        assert Escape(s)[..|Escape(s)| - 2] == Escape(rest);
      } else {
        assert Escape(s) == Escape(rest) + [c];
        assert Escape(s)[..|Escape(s)| - 1] == Escape(rest);
      }
    }
  }

  lemma {:induction false} EscapedIsOne(s: string, escaped: string)
    requires IsEscaped(s, escaped)
    ensures escaped == Escape(s)
    decreases |escaped|
  {
    if escaped != "" {
      var n := |escaped|;
      if escaped[n - 1] == '|' {
        assert escaped[n - 2] == '\\' && escaped == escaped[..n - 2] + "\\|";
        EscapedIsOne(Unescape(escaped[..n - 2]), escaped[..n - 2]);
        assert s[..|s| - 1] == Unescape(escaped[..n - 2]);
      } else {
        assert escaped == escaped[..n - 1] + [escaped[n - 1]];
        EscapedIsOne(Unescape(escaped[..n - 1]), escaped[..n - 1]);
        assert s[..|s| - 1] == Unescape(escaped[..n - 1]);
      }
    }
  }

  /** What a cell shows of an optional text: up to `n` characters of the escaped text, `?` for none. */
  ghost predicate Shows(cell: string, text: Option<string>, n: nat) {
    exists escaped ::
      IsEscaped(if text in {None, Some("")} then "?" else text.value, escaped)
      && cell == " " + (if |escaped| <= n then escaped else escaped[..n]) + " "
  }

  // ---------- one row ----------

  /** The parts of a pull request's row that are not free text. */
  datatype Entry = Entry(pr: string, size: string, upstream: string)

  function FirstCells(e: Entry): string {
    " `pr-" + e.pr + ".bc` (" + e.size + ") "
  }

  function LinkCell(e: Entry): string {
    " [#" + e.pr + "](" + e.upstream + "/pull/" + e.pr + ") "
  }

  /** Lines 187-190, for an optional title and file list: a missing or empty one prints as `?`. */
  function PrRow(e: Entry, title: Option<string>, files: Option<string>): string {
    "|" + FirstCells(e) + "|" + LinkCell(e) + "| " + Truncate(Escape(OrUnknown(title)), 70)
    + " | " + Truncate(Escape(OrUnknown(files)), 60) + " |\n"
  }

  function OrUnknown(s: Option<string>): string {
    if s.Some? && s.value != "" then s.value else "?"
  }

  lemma ThreeBars(before: char, first: string, second: string)
    requires before != '\\' && LastChar('|', first) != '\\' && LastChar('|', second) != '\\'
    ensures Pipes(before, "|" + first + "|" + second + "| ") == 3 + Pipes('|', first) + Pipes('|', second)
  {
    assert Pipes(before, "|") == 1 && "|"[..0] == "";
    PipesConcat(before, "|", first);
    OneBar(LastChar(before, "|" + first));
    PipesConcat(before, "|" + first, "|");
    PipesConcat(before, "|" + first + "|", second);
    OneBar(LastChar(before, "|" + first + "|" + second));
    PipesConcat(before, "|" + first + "|" + second, "| ");
  }

  lemma OneBar(before: char)
    requires before != '\\'
    ensures Pipes(before, "|") == 1 && Pipes(before, "| ") == 1
  {
    assert "|"[..0] == "" && "| "[..1] == "|" && "| "[..1][..0] == "";
  }

  lemma MiddleBar(before: char)
    ensures Pipes(before, " | ") == 1 && Pipes(before, " |\n") == 1
  {
    assert " | "[..2] == " |" && " |"[..1] == " " && " "[..0] == "" && " |\n"[..2] == " |";
    assert Pipes(before, " ") == 0 && Pipes(before, " |") == 1;
  }

  /** Every pull request row has exactly five unescaped pipes, for any title and any file list, besides
      those that an id, a size or an address brings in: these are not escaped. */
  lemma FivePipes(e: Entry, title: Option<string>, files: Option<string>)
    ensures Pipes('\n', PrRow(e, title, files)) == 5 + Pipes('|', FirstCells(e)) + Pipes('|', LinkCell(e))
    ensures '|' !in FirstCells(e) && '|' !in LinkCell(e) ==> Pipes('\n', PrRow(e, title, files)) == 5
  {
    var first, second := FirstCells(e), LinkCell(e);
    assert first[|first| - 1] == ' ' && second[|second| - 1] == ' ';
    if '|' !in first && '|' !in second {
      EscapedHasNone('|', first);
      EscapedHasNone('|', second);
    }
    var head := "|" + first + "|" + second + "| ";
    var t, f := Truncate(Escape(OrUnknown(title)), 70), Truncate(Escape(OrUnknown(files)), 60);
    ThreeBars('\n', first, second);
    CellHasNone(LastChar('\n', head), OrUnknown(title), 70);
    PipesConcat('\n', head, t);
    MiddleBar(LastChar('\n', head + t));
    PipesConcat('\n', head + t, " | ");
    CellHasNone(LastChar('\n', head + t + " | "), OrUnknown(files), 60);
    PipesConcat('\n', head + t + " | ", f);
    MiddleBar(LastChar('\n', head + t + " | " + f));
    PipesConcat('\n', head + t + " | " + f, " |\n");
    assert PrRow(e, title, files) == head + t + " | " + f + " |\n";
  }

  // ---------- the cells of a row ----------

  /** The pieces between the pipes that no backslash precedes. */
  function Cells(before: char, s: string): (cells: seq<string>)
    ensures |cells| == Pipes(before, s) + 1
  {
    if s == "" then [""]
    else
      var rest, c := s[..|s| - 1], s[|s| - 1];
      if c == '|' && LastChar(before, rest) != '\\' then Cells(before, rest) + [""]
      else Longer(Cells(before, rest), [c])
  }

  /** The cells with this text behind the last one. */
  function Longer(cells: seq<string>, text: string): (longer: seq<string>)
    requires cells != []
    ensures |longer| == |cells|
  {
    cells[..|cells| - 1] + [cells[|cells| - 1] + text]
  }

  lemma LongerTwice(cells: seq<string>, a: string, b: string)
    requires cells != []
    ensures Longer(Longer(cells, a), b) == Longer(cells, a + b)
  {
    assert (cells[|cells| - 1] + a) + b == cells[|cells| - 1] + (a + b);
  }

  lemma {:induction false} LastCellGrows(before: char, a: string, c: string)
    requires Pipes(LastChar(before, a), c) == 0
    ensures Cells(before, a + c) == Longer(Cells(before, a), c)
  {
    if c == "" {
      assert a + c == a && Cells(before, a)[|Cells(before, a)| - 1] + "" == Cells(before, a)[|Cells(before, a)| - 1];
    } else {
      var rest, last := c[..|c| - 1], c[|c| - 1];
      LastCellGrows(before, a, rest);
      assert (a + c)[..|a + c| - 1] == a + rest && c == rest + [last] && (a + c)[|a + c| - 1] == last;
      assert LastChar(before, a + rest) == LastChar(LastChar(before, a), rest);
      LongerTwice(Cells(before, a), rest, [last]);
    }
  }

  /** One more cell behind a pipe. */
  lemma OneMoreCell(before: char, a: string, c: string)
    requires LastChar(before, a) != '\\' && Pipes('|', c) == 0
    ensures Cells(before, a + "|" + c) == Cells(before, a) + [c]
  {
    NextCell(before, a);
    LastCellGrows(before, a + "|", c);
    NewCell(Cells(before, a), c);
  }

  lemma NewCell(cells: seq<string>, c: string)
    ensures Longer(cells + [""], c) == cells + [c]
  {
    assert (cells + [""])[..|cells|] == cells && "" + c == c;
  }

  lemma NextCell(before: char, a: string)
    requires LastChar(before, a) != '\\'
    ensures Cells(before, a + "|") == Cells(before, a) + [""] && LastChar(before, a + "|") == '|'
  {
    assert (a + "|")[..|a|] == a;
  }

  lemma EscapedCell(text: Option<string>, n: nat)
    ensures var cell := " " + Truncate(Escape(OrUnknown(text)), n) + " ";
      Pipes('|', cell) == 0 && LastChar('|', cell) == ' ' && Shows(cell, text, n)
  {
    var shown := Truncate(Escape(OrUnknown(text)), n);
    EscapeComesOut(OrUnknown(text));
    CellHasNone(' ', OrUnknown(text), n);
    assert " "[..0] == "" && Pipes('|', " ") == 0 && Pipes(LastChar(' ', shown), " ") == 0;
    PipesConcat('|', " ", shown);
    PipesConcat('|', " " + shown, " ");
  }

  /** The row reads back as these two texts behind its first two cells. */
  ghost predicate ReadsBack(row: string, e: Entry, title: Option<string>, files: Option<string>,
                            third: string, fourth: string) {
    && Cells('\n', row) ==
         ["", " `pr-" + e.pr + ".bc` (" + e.size + ") ", " [#" + e.pr + "](" + e.upstream + "/pull/" + e.pr + ") ",
          third, fourth, "\n"]
    && Shows(third, title, 70) && Shows(fourth, files, 60)
  }

  /** Reading a row back gives its four cells, in order, when the id, the size and the address hold no pipe:
      file and size, link, title and files. */
  lemma RowReadsBack(e: Entry, title: Option<string>, files: Option<string>)
    requires '|' !in e.pr && '|' !in e.size && '|' !in e.upstream
    ensures exists third, fourth :: ReadsBack(PrRow(e, title, files), e, title, files, third, fourth)
  {
    var row, third, fourth := RowIsJoined(e, title, files);
    CellsOfRow(e, third, fourth, row);
    assert ReadsBack(row, e, title, files, third, fourth);
  }

  lemma RowIsJoined(e: Entry, title: Option<string>, files: Option<string>)
    returns (row: string, third: string, fourth: string)
    ensures row == PrRow(e, title, files)
    ensures row == "|" + FirstCells(e) + "|" + LinkCell(e) + "|" + third + "|" + fourth + "|" + "\n"
    ensures Pipes('|', third) == Pipes('|', fourth) == 0 && LastChar('|', third) == LastChar('|', fourth) == ' '
    ensures Shows(third, title, 70) && Shows(fourth, files, 60)
  {
    row := PrRow(e, title, files);
    third := " " + Truncate(Escape(OrUnknown(title)), 70) + " ";
    fourth := " " + Truncate(Escape(OrUnknown(files)), 60) + " ";
    EscapedCell(title, 70);
    EscapedCell(files, 60);
    JoinsAlike("|" + FirstCells(e) + "|" + LinkCell(e), Truncate(Escape(OrUnknown(title)), 70),
               Truncate(Escape(OrUnknown(files)), 60));
  }

  lemma PlainCells(e: Entry)
    requires '|' !in e.pr && '|' !in e.size && '|' !in e.upstream
    ensures Pipes('|', FirstCells(e)) == 0 && LastChar('|', FirstCells(e)) == ' '
    ensures Pipes('|', LinkCell(e)) == 0 && LastChar('|', LinkCell(e)) == ' '
  {
    NoPipeIn(FirstCells(e));
    NoPipeIn(LinkCell(e));
  }

  lemma NoPipeIn(s: string)
    requires '|' !in s
    ensures Pipes('|', s) == 0
  {
    EscapedHasNone('|', s);
  }

  lemma CellsOfRow(e: Entry, third: string, fourth: string, row: string)
    requires '|' !in e.pr && '|' !in e.size && '|' !in e.upstream
    requires Pipes('|', third) == Pipes('|', fourth) == 0 && LastChar('|', third) == LastChar('|', fourth) == ' '
    requires row == "|" + FirstCells(e) + "|" + LinkCell(e) + "|" + third + "|" + fourth + "|" + "\n"
    ensures Cells('\n', row) == ["", FirstCells(e), LinkCell(e), third, fourth, "\n"]
  {
    PlainCells(e);
    FourCells(FirstCells(e), LinkCell(e), third, fourth, row);
  }

  lemma JoinsAlike(head: string, third: string, fourth: string)
    ensures head + "| " + third + " | " + fourth + " |\n" ==
            head + "|" + (" " + third + " ") + "|" + (" " + fourth + " ") + "|" + "\n"
  {
    assert "| " == "|" + " " && " | " == " " + "|" + " " && " |\n" == " " + "|" + "\n";
  }

  lemma FourCells(first: string, second: string, third: string, fourth: string, row: string)
    requires Pipes('|', first) == Pipes('|', second) == Pipes('|', third) == Pipes('|', fourth) == 0
    requires LastChar('|', first) == LastChar('|', second) == LastChar('|', third) == LastChar('|', fourth) == ' '
    requires row == "|" + first + "|" + second + "|" + third + "|" + fourth + "|" + "\n"
    ensures Cells('\n', row) == ["", first, second, third, fourth, "\n"]
  {
    var a := "|" + first;
    assert a == "" + "|" + first;
    CellAdded("", a, first, [""]);
    var b := a + "|" + second;
    CellAdded(a, b, second, ["", first]);
    var c := b + "|" + third;
    CellAdded(b, c, third, ["", first, second]);
    var d := c + "|" + fourth;
    CellAdded(c, d, fourth, ["", first, second, third]);
    assert "\n"[..0] == "" && Pipes('|', "\n") == 0;
    OneMoreCell('\n', d, "\n");
  }

  lemma CellAdded(a: string, longer: string, c: string, cells: seq<string>)
    requires longer == a + "|" + c && cells == Cells('\n', a) && LastChar('\n', a) != '\\'
    requires Pipes('|', c) == 0 && LastChar('|', c) == ' '
    ensures Cells('\n', longer) == cells + [c] && LastChar('\n', longer) == ' '
  {
    OneMoreCell('\n', a, c);
  }

  // ---------- the order of the rows ----------

  /** The sort key of line 88: numbers before names. */
  datatype PrKey = Number(value: int) | Name(text: string)

  function Undashed(id: string): string {
    if id != "" && id[0] == '-' then Undashed(id[1..]) else id
  }

  /** What Python takes a character for: a decimal digit of some script, which int accepts; a digit for
      isdigit that int rejects, like a superscript; or no digit. */
  datatype Kind = DecimalDigit(value: nat) | OtherDigit | NoDigit

  /** Unicode's table of characters. */
  type Kinds = char -> Kind

  predicate IsTable(kinds: Kinds) {
    forall c :: c < '\U{80}' ==> kinds(c) == if IsDigit(c) then DecimalDigit(c as int - '0' as int) else NoDigit
  }

  /** x.lstrip("-").isdigit(). */
  predicate LooksNumeric(kinds: Kinds, id: string) {
    Undashed(id) != "" && forall c :: c in Undashed(id) ==> !kinds(c).NoDigit?
  }

  predicate AllDecimal(kinds: Kinds, s: string) {
    forall c :: c in s ==> kinds(c).DecimalDigit?
  }

  /** int(x) rejects more than one leading dash, and the digits that are not decimal. */
  predicate Readable(kinds: Kinds, id: string) {
    LooksNumeric(kinds, id) ==> |id| <= |Undashed(id)| + 1 && AllDecimal(kinds, Undashed(id))
  }

  /** The number that decimal digits stand for. */
  function NumberOf(kinds: Kinds, s: string): nat
    requires AllDecimal(kinds, s)
  {
    if s == "" then 0
    else
      var last := s[|s| - 1];
      assert last in s;
      10 * NumberOf(kinds, s[..|s| - 1]) + kinds(last).value
  }

  function Power(n: nat): nat {
    if n == 0 then 1 else 10 * Power(n - 1)
  }

  /** Digit by digit from the left, each with the value of its place. */
  function PlaceValue(kinds: Kinds, s: string): nat
    requires AllDecimal(kinds, s)
  {
    if s == "" then 0
    else
      assert s[0] in s;
      kinds(s[0]).value * Power(|s| - 1) + PlaceValue(kinds, s[1..])
  }

  lemma {:induction false} PlaceValuePlus(kinds: Kinds, s: string, c: char)
    requires AllDecimal(kinds, s) && kinds(c).DecimalDigit?
    ensures AllDecimal(kinds, s + [c]) && PlaceValue(kinds, s + [c]) == 10 * PlaceValue(kinds, s) + kinds(c).value
  {
    if s != "" {
      PlaceValuePlus(kinds, s[1..], c);
      assert (s + [c])[1..] == s[1..] + [c] && s[0] in s;
      TenTimes(kinds(s[0]).value, Power(|s| - 1));
    }
  }

  lemma TenTimes(a: nat, b: nat)
    ensures a * (10 * b) == 10 * (a * b)
  {}

  lemma {:induction false} NumberIsPlaceValue(kinds: Kinds, s: string)
    requires AllDecimal(kinds, s)
    ensures NumberOf(kinds, s) == PlaceValue(kinds, s)
  {
    if s != "" {
      var rest, c := s[..|s| - 1], s[|s| - 1];
      assert c in s && s == rest + [c];
      NumberIsPlaceValue(kinds, rest);
      PlaceValuePlus(kinds, rest, c);
    }
  }

  /** The id is `n` dashes and then digits of any kind. */
  predicate DashesAndDigits(kinds: Kinds, id: string, n: nat) {
    && n < |id| && id[n] != '-' && (forall k :: 0 <= k < n ==> id[k] == '-')
    && forall k :: n <= k < |id| ==> !kinds(id[k]).NoDigit?
  }

  ghost predicate IsNumeric(kinds: Kinds, id: string) {
    exists n: nat :: DashesAndDigits(kinds, id, n)
  }

  /** A numeric id that int rejects: for several dashes, or for a digit that is not decimal. */
  ghost predicate IsRejected(kinds: Kinds, id: string) {
    exists n: nat :: DashesAndDigits(kinds, id, n) && (n > 1 || !AllDecimal(kinds, id[n..]))
  }

  /** The number an id stands for: decimal digits, behind a dash for a negative one. */
  predicate ReadsAs(kinds: Kinds, id: string, value: int) {
    if id != "" && id[0] == '-'
    then AllDecimal(kinds, id[1..]) && value == 0 - PlaceValue(kinds, id[1..])
    else AllDecimal(kinds, id) && value == PlaceValue(kinds, id)
  }

  lemma {:induction false} UndashedIs(id: string) returns (n: nat)
    ensures n <= |id| && Undashed(id) == id[n..] && (forall k :: 0 <= k < n ==> id[k] == '-')
    ensures n < |id| ==> id[n] != '-'
  {
    if id != "" && id[0] == '-' {
      var m := UndashedIs(id[1..]);
      n := m + 1;
      assert id[1..][m..] == id[n..];
      forall k | 0 <= k < n ensures id[k] == '-' {
        assert k > 0 ==> id[k] == id[1..][k - 1];
      }
    } else {
      n := 0;
    }
  }

  lemma NumericIs(kinds: Kinds, id: string)
    ensures LooksNumeric(kinds, id) <==> IsNumeric(kinds, id)
    ensures !Readable(kinds, id) <==> IsRejected(kinds, id)
  {
    var n := UndashedIs(id);
    forall m: nat | DashesAndDigits(kinds, id, m) ensures m == n {
      assert !(m < n) && !(n < m);
    }
    assert forall k :: n <= k < |id| ==> id[k] == id[n..][k - n];
    assert LooksNumeric(kinds, id) <==> DashesAndDigits(kinds, id, n) by {
      assert forall c :: c in id[n..] <==> exists k :: n <= k < |id| && id[k] == c;
    }
  }

  lemma KeyReads(kinds: Kinds, id: string)
    requires ReadKey(kinds, id).Number?
    ensures IsNumeric(kinds, id) && ReadsAs(kinds, id, ReadKey(kinds, id).value)
  {
    NumericIs(kinds, id);
    var n := UndashedIs(id);
    NumberIsPlaceValue(kinds, Undashed(id));
  }

  /** For ASCII digits this is the usual value. */
  lemma {:induction false} NumberIsValue(kinds: Kinds, s: string)
    requires IsTable(kinds) && forall c :: c in s ==> IsDigit(c)
    ensures AllDecimal(kinds, s) && NumberOf(kinds, s) == Value(s)
  {
    if s != "" {
      NumberIsValue(kinds, s[..|s| - 1]);
      assert s[|s| - 1] in s;
    }
  }

  /** The key of a readable id. */
  function ReadKey(kinds: Kinds, id: string): PrKey {
    if !LooksNumeric(kinds, id) || !Readable(kinds, id) then Name(id)
    else if |id| == |Undashed(id)| then Number(NumberOf(kinds, Undashed(id)))
    else Number(0 - NumberOf(kinds, Undashed(id)))
  }

  predicate KeyLeq(a: PrKey, b: PrKey) {
    match (a, b)
    case (Number(x), Number(y)) => x <= y
    case (Number(_), Name(_)) => true
    case (Name(_), Number(_)) => false
    case (Name(x), Name(y)) => TextLeq(x, y)
  }

  function ByPr(kinds: Kinds): (string, string) -> bool {
    (x: string, y: string) => KeyLeq(ReadKey(kinds, x), ReadKey(kinds, y))
  }

  lemma ByPrIsOrder(kinds: Kinds)
    ensures TotalPreorder(ByPr(kinds))
  {
    forall x, y ensures ByPr(kinds)(x, y) || ByPr(kinds)(y, x) {
      if ReadKey(kinds, x).Name? && ReadKey(kinds, y).Name? {
        TextTotal(ReadKey(kinds, x).text, ReadKey(kinds, y).text);
      }
    }
    forall x, y, z | ByPr(kinds)(x, y) && ByPr(kinds)(y, z) ensures ByPr(kinds)(x, z) {
      var a, b, c := ReadKey(kinds, x), ReadKey(kinds, y), ReadKey(kinds, z);
      if a.Name? && b.Name? && c.Name? {
        TextTransitive(a.text, b.text, c.text);
      }
    }
  }

  /** Both are numeric, and the first one's number is not greater. */
  ghost predicate NumbersAscend(kinds: Kinds, a: string, b: string) {
    && IsNumeric(kinds, a) && IsNumeric(kinds, b)
    && exists x, y :: ReadsAs(kinds, a, x) && ReadsAs(kinds, b, y) && x <= y
  }

  /** The row order: a permutation of the ids, with the numeric ones first and ascending, then
      the names by code points.  It fails exactly when some id has digits behind more than one dash, or
      digits that are not all decimal. */
  method RowOrder(kinds: Kinds, ids: seq<string>) returns (order: Option<seq<string>>)
    ensures order.None? <==> exists id :: id in ids && IsRejected(kinds, id)
    ensures order.Some? ==> multiset(order.value) == multiset(ids)
    ensures order.Some? ==> forall i, j :: 0 <= i < j < |order.value| ==>
              if IsNumeric(kinds, order.value[j]) then NumbersAscend(kinds, order.value[i], order.value[j])
              else IsNumeric(kinds, order.value[i]) || TextLeq(order.value[i], order.value[j])
  {
    forall id ensures !Readable(kinds, id) <==> IsRejected(kinds, id) {
      NumericIs(kinds, id);
    }
    for i := 0 to |ids|
      invariant forall k :: 0 <= k < i ==> Readable(kinds, ids[k])
    {
      if !Readable(kinds, ids[i]) {
        return None;
      }
    }
    ByPrIsOrder(kinds);
    SortSorts(ids, ByPr(kinds));
    var sorted := Sort(ids, ByPr(kinds));
    forall i, j | 0 <= i < j < |sorted|
      ensures if IsNumeric(kinds, sorted[j]) then NumbersAscend(kinds, sorted[i], sorted[j])
              else IsNumeric(kinds, sorted[i]) || TextLeq(sorted[i], sorted[j])
    {
      assert sorted[i] in multiset(sorted) && sorted[j] in multiset(sorted);
      assert ByPr(kinds)(sorted[i], sorted[j]);
      KeysInOrder(kinds, sorted[i], sorted[j]);
    }
    return Some(sorted);
  }

  lemma KeysInOrder(kinds: Kinds, a: string, b: string)
    requires Readable(kinds, a) && Readable(kinds, b) && KeyLeq(ReadKey(kinds, a), ReadKey(kinds, b))
    ensures if IsNumeric(kinds, b) then NumbersAscend(kinds, a, b) else IsNumeric(kinds, a) || TextLeq(a, b)
  {
    NumericIs(kinds, a);
    NumericIs(kinds, b);
    if ReadKey(kinds, b).Number? {
      KeyReads(kinds, a);
      KeyReads(kinds, b);
    }
  }
}
