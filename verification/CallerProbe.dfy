/**
 make_caller_bc.py: the index-based search that inserts the probe, the line-based search it
 refines, and the choice of the function to change.
 */
module CallerProbe {
  import opened Wrappers
  import opened Text

  const PROBE := "  %persist_probe = add i32 0, 0\n"

  /** The start of the line that holds position `at`: one past the last newline before it. */
  function LineOf(text: string, at: nat): (l: nat)
    requires at <= |text|
    ensures l <= at && IsLineStart(text, l) && forall i :: l <= i < at ==> text[i] != '\n'
  {
    if at == 0 || text[at - 1] == '\n' then at else LineOf(text, at - 1)
  }

  predicate IsLineStart(text: string, l: nat) {
    l <= |text| && (l == 0 || text[l - 1] == '\n')
  }

  // ---------- what the search finds ----------

  function KeyOf(func: string): string {
    "@" + func + "("
  }

  /** The key occurs here, on a line that begins with `define`. */
  predicate OnDefineLine(text: string, key: string, at: nat) {
    Occurs(text, key, at) && Occurs(text, "define", LineOf(text, at))
  }

  ghost predicate NoneBefore(text: string, key: string, n: nat) {
    forall i :: 0 <= i < n ==> !OnDefineLine(text, key, i)
  }

  ghost predicate IsFirst(text: string, key: string, at: nat) {
    OnDefineLine(text, key, at) && NoneBefore(text, key, at)
  }

  /** Right after the first newline that follows the first brace at or after `at`; the very
      beginning of the text when no newline follows that brace. */
  function InsertionPoint(text: string, at: nat): (p: Option<nat>)
    ensures p.Some? ==> p.value <= |text| && IsLineStart(text, p.value)
  {
    var brace := Find(text, "{", at);
    if brace < 0 then None
    else
      var nl := Find(text, "\n", brace);
      assert nl >= 0 ==> text[nl..nl + 1] == "\n" && text[nl] == '\n';
      Some(nl + 1)
  }

  /** Where the probe goes for a key, said without a search. */
  ghost function KeyPoint(text: string, key: string): (p: Option<nat>)
    ensures p.Some? ==> p.value <= |text| && IsLineStart(text, p.value)
  {
    if at :| IsFirst(text, key, at) then InsertionPoint(text, at) else None
  }

  ghost function ProbePoint(text: string, func: string): (p: Option<nat>)
    ensures p.Some? ==> p.value <= |text| && IsLineStart(text, p.value)
  {
    KeyPoint(text, KeyOf(func))
  }

  lemma KeyPointAt(text: string, key: string, at: nat)
    requires IsFirst(text, key, at)
    ensures KeyPoint(text, key) == InsertionPoint(text, at)
  {
    forall other: nat | IsFirst(text, key, other) ensures other == at {
      assert !(other < at) && !(at < other);
    }
  }

  lemma KeyPointNone(text: string, key: string)
    requires NoneBefore(text, key, |text| + 1)
    ensures KeyPoint(text, key) == None
  {}

  function Inserted(text: string, p: nat): string
    requires p <= |text|
  {
    text[..p] + PROBE + text[p..]
  }

  /** The result of the probe insertion. */
  ghost function ProbeSpec(text: string, func: string): Option<string> {
    var p := ProbePoint(text, func);
    if p.None? then None else Some(Inserted(text, p.value))
  }

  /** What one search tells: no match before the occurrence found, or none at all. */
  lemma SearchStep(text: string, key: string, start: nat)
    requires NoneBefore(text, key, start)
    ensures var at := Find(text, key, start);
      if at < 0 then NoneBefore(text, key, |text| + 1)
      else NoneBefore(text, key, at) && (OnDefineLine(text, key, at) || NoneBefore(text, key, at + 1))
  {}

  // ---------- what an insertion is, character by character ----------

  /** The name of the function between `@` and an opening parenthesis. */
  predicate NamedAt(text: string, func: string, at: nat) {
    && at + |func| + 2 <= |text| && text[at] == '@' && text[at + 1 + |func|] == '('
    && forall k :: 0 <= k < |func| ==> text[at + 1 + k] == func[k]
  }

  /** So named, on a line that begins with `define`. */
  ghost predicate DefinedAt(text: string, func: string, at: nat) {
    NamedAt(text, func, at) && exists l: nat :: BeginsWithDefine(text, l) && SameLine(text, l, at)
  }

  predicate BeginsWithDefine(text: string, l: nat) {
    IsLineStart(text, l) && l + 6 <= |text| && text[l..l + 6] == ['d', 'e', 'f', 'i', 'n', 'e']
  }

  predicate SameLine(text: string, l: nat, at: nat) {
    l <= at <= |text| && forall i :: l <= i < at ==> text[i] != '\n'
  }

  ghost predicate FirstDefinedAt(text: string, func: string, at: nat) {
    DefinedAt(text, func, at) && forall i: nat :: i < at ==> !DefinedAt(text, func, i)
  }

  /** The first brace from a position on. */
  predicate FirstBrace(text: string, at: nat, brace: nat) {
    at <= brace < |text| && text[brace] == '{' && forall i :: at <= i < brace ==> text[i] != '{'
  }

  /** The text with the probe after the line that holds a position, or in front of it when that line has
      no newline at its end. */
  ghost predicate PutAfterLine(text: string, brace: nat, out: string) {
    exists e: nat :: SameLine(text, brace, e) && PutAtEnd(text, e, out)
  }

  predicate PutAtEnd(text: string, e: nat, out: string)
    requires e <= |text|
  {
    if e < |text| then text[e] == '\n' && out == text[..e + 1] + PROBE + text[e + 1..] else out == PROBE + text
  }

  /** The probe is put after the line of the first brace that follows the first mention of the function
      on a line that begins with `define`. */
  ghost predicate Probed(text: string, func: string, out: string) {
    exists at, brace :: FirstDefinedAt(text, func, at) && FirstBrace(text, at, brace) && PutAfterLine(text, brace, out)
  }

  lemma KeyIsName(text: string, func: string, at: nat)
    ensures Occurs(text, KeyOf(func), at) <==> NamedAt(text, func, at)
  {
    var key := KeyOf(func);
    if at + |key| <= |text| {
      var piece := text[at..at + |key|];
      assert piece == [text[at]] + text[at + 1..at + 1 + |func|] + [text[at + 1 + |func|]];
      var name := text[at + 1..at + 1 + |func|];
      assert NamedAt(text, func, at) <==> text[at] == '@' && name == func && text[at + 1 + |func|] == '(';
      KeyParts(func, text[at], name, text[at + 1 + |func|]);
    }
  }

  lemma KeyParts(func: string, first: char, name: string, last: char)
    requires |name| == |func|
    ensures [first] + name + [last] == KeyOf(func) <==> first == '@' && name == func && last == '('
  {
    var a, b := [first] + name + [last], KeyOf(func);
    assert a[0] == first && a[1..|func| + 1] == name && a[|func| + 1] == last;
    assert b[0] == '@' && b[1..|func| + 1] == func && b[|func| + 1] == '(';
  }

  lemma LineOfIsSame(text: string, l: nat, at: nat)
    requires at <= |text|
    ensures IsLineStart(text, l) && SameLine(text, l, at) <==> l == LineOf(text, at)
  {
    assert IsLineStart(text, LineOf(text, at));
  }

  lemma DefineLineIs(text: string, func: string, at: nat)
    ensures OnDefineLine(text, KeyOf(func), at) <==> DefinedAt(text, func, at)
  {
    KeyIsName(text, func, at);
    assert "define" == ['d', 'e', 'f', 'i', 'n', 'e'];
    if NamedAt(text, func, at) {
      var line := LineOf(text, at);
      LineOfIsSame(text, line, at);
      assert Occurs(text, "define", line) <==> BeginsWithDefine(text, line);
      if l: nat :| BeginsWithDefine(text, l) && SameLine(text, l, at) {
        LineOfIsSame(text, l, at);
      }
    }
  }

  lemma FirstIs(text: string, func: string, at: nat)
    ensures IsFirst(text, KeyOf(func), at) <==> FirstDefinedAt(text, func, at)
  {
    forall i: nat ensures OnDefineLine(text, KeyOf(func), i) <==> DefinedAt(text, func, i) {
      DefineLineIs(text, func, i);
    }
  }

  lemma FindBrace(text: string, at: nat, brace: nat)
    ensures FirstBrace(text, at, brace) <==> Find(text, "{", at) == brace
  {
    forall i: nat | i < |text| ensures Occurs(text, "{", i) <==> text[i] == '{' {
      assert text[i..i + 1] == [text[i]];
    }
    var found := Find(text, "{", at);
    if FirstBrace(text, at, brace) {
      assert Occurs(text, "{", brace);
      assert !(found < 0) && !(found < brace) && !(brace < found);
    }
  }

  lemma FindNewline(text: string, brace: nat, e: nat)
    requires brace <= e <= |text|
    ensures SameLine(text, brace, e) && (e < |text| ==> text[e] == '\n') <==>
              Find(text, "\n", brace) == if e < |text| then e else -1
  {
    forall i: nat | i < |text| ensures Occurs(text, "\n", i) <==> text[i] == '\n' {
      assert text[i..i + 1] == [text[i]];
    }
    var found := Find(text, "\n", brace);
    if SameLine(text, brace, e) && (e < |text| ==> text[e] == '\n') {
      assert e < |text| ==> Occurs(text, "\n", e);
      assert found >= 0 ==> Occurs(text, "\n", found) && text[found] == '\n';
    }
  }

  lemma PutIs(text: string, brace: nat, out: string)
    requires brace <= |text|
    ensures PutAfterLine(text, brace, out) <==> out == Inserted(text, AfterNewline(text, brace))
  {
    var nl := Find(text, "\n", brace);
    var e: nat := if nl >= 0 then nl else |text|;
    FindNewline(text, brace, e);
    assert text[..0] + PROBE + text[0..] == PROBE + text;
    if PutAfterLine(text, brace, out) {
      var other: nat :| SameLine(text, brace, other) && PutAtEnd(text, other, out);
      FindNewline(text, brace, other);
    } else if out == Inserted(text, AfterNewline(text, brace)) {
      assert SameLine(text, brace, e) && PutAtEnd(text, e, out);
    }
  }

  /** One past the first newline from a position on, or 0. */
  function AfterNewline(text: string, at: nat): (p: nat)
    ensures p <= |text|
  {
    (Find(text, "\n", at) + 1) as nat
  }

  /** The result of the insertion, and no result exactly when there is no such place. */
  lemma ProbeMeans(text: string, func: string, out: string)
    ensures ProbeSpec(text, func) == Some(out) <==> Probed(text, func, out)
  {
    if at: nat :| IsFirst(text, KeyOf(func), at) {
      FirstIs(text, func, at);
      KeyPointAt(text, KeyOf(func), at);
      ProbeMeansAt(text, func, at, out);
    } else if at, brace :|
        FirstDefinedAt(text, func, at) && FirstBrace(text, at, brace) && PutAfterLine(text, brace, out) {
      FirstIs(text, func, at);
    }
  }

  lemma FirstIsOne(text: string, func: string, a: nat, b: nat)
    requires FirstDefinedAt(text, func, a) && FirstDefinedAt(text, func, b)
    ensures a == b
  {
    assert !(a < b) && !(b < a);
  }

  lemma ProbeMeansAt(text: string, func: string, at: nat, out: string)
    requires FirstDefinedAt(text, func, at) && ProbePoint(text, func) == InsertionPoint(text, at)
    ensures ProbeSpec(text, func) == Some(out) <==> Probed(text, func, out)
  {
    var found := Find(text, "{", at);
    if found >= 0 {
      FindBrace(text, at, found);
      PutIs(text, found, out);
      assert InsertionPoint(text, at) == Some(AfterNewline(text, found));
    }
    if Probed(text, func, out) {
      var other, brace :|
        FirstDefinedAt(text, func, other) && FirstBrace(text, other, brace) && PutAfterLine(text, brace, out);
      FirstIsOne(text, func, at, other);
      FindBrace(text, at, brace);
      PutIs(text, brace, out);
    }
  }

  /** insert_probe. */
  method InsertProbe(text: string, func: string) returns (r: Option<string>)
    ensures r == ProbeSpec(text, func)
    ensures forall out :: Probed(text, func, out) <==> r == Some(out)
  {
    var key := KeyOf(func);
    var start := 0;
    forall out ensures Probed(text, func, out) <==> ProbeSpec(text, func) == Some(out) {
      ProbeMeans(text, func, out);
    }
    while true
      invariant 0 <= start <= |text|
      invariant NoneBefore(text, key, start)
      decreases |text| - start
    {
      var at := Find(text, key, start);
      SearchStep(text, key, start);
      if at < 0 {
        KeyPointNone(text, key);
        return None;
      }
      var line := LineOf(text, at);
      if Occurs(text, "define", line) {
        KeyPointAt(text, key, at);
        var brace := Find(text, "{", at);
        if brace < 0 { return None; }
        var nl := Find(text, "\n", brace);
        return Some(text[..nl + 1] + PROBE + text[nl + 1..]);
      }
      start := at + 1;
    }
  }

  // ---------- the line-based search ----------

  /** One past the last character of the line that starts at `l`. */
  function LineEnd(text: string, l: nat): (e: nat)
    requires l <= |text|
    ensures l <= e <= |text| && (e < |text| ==> text[e] == '\n') && forall i :: l <= i < e ==> text[i] != '\n'
    decreases |text| - l
  {
    if l == |text| || text[l] == '\n' then l else LineEnd(text, l + 1)
  }

  /** The line begins with `define` and contains the key. */
  predicate IsDefinition(line: string, key: string) {
    Occurs(line, "define", 0) && Find(line, key, 0) >= 0
  }

  function Line(text: string, l: nat): string
    requires l <= |text|
  {
    text[l..LineEnd(text, l)]
  }

  /** The first place of the key on a definition line. */
  function MatchOn(text: string, key: string, l: nat): nat
    requires l <= |text| && IsDefinition(Line(text, l), key)
  {
    l + Find(Line(text, l), key, 0)
  }

  /** Scans the text line by line from a line start: where the first definition line starts. */
  function FirstDefinition(text: string, key: string, l: nat): (d: Option<nat>)
    requires l <= |text|
    ensures d.Some? ==> d.value <= |text| && IsDefinition(Line(text, d.value), key)
    decreases |text| - l
  {
    if IsDefinition(Line(text, l), key) then Some(l)
    else if LineEnd(text, l) == |text| then None
    else FirstDefinition(text, key, LineEnd(text, l) + 1)
  }

  /** The line-based specification: in the first definition line, from the key onwards. */
  function LinePoint(text: string, func: string): Option<nat> {
    PointOnLine(text, KeyOf(func), FirstDefinition(text, KeyOf(func), 0))
  }

  function PointOnLine(text: string, key: string, l: Option<nat>): Option<nat>
    requires l.Some? ==> l.value <= |text| && IsDefinition(Line(text, l.value), key)
  {
    if l.None? then None else InsertionPoint(text, MatchOn(text, key, l.value))
  }

  lemma {:induction false} LineOfIn(text: string, l: nat, i: nat)
    requires IsLineStart(text, l) && l <= i <= LineEnd(text, l)
    ensures LineOf(text, i) == l
    decreases i
  {
    if i > l {
      assert text[i - 1] != '\n';
      LineOfIn(text, l, i - 1);
    }
  }

  lemma PieceHolds(text: string, piece: string, i: nat, e: nat)
    requires Occurs(text, piece, i) && i <= e < i + |piece|
    ensures text[e] in piece
  {
    assert text[i..i + |piece|][e - i] == text[e];
  }

  lemma StaysOnLine(text: string, piece: string, l: nat, i: nat)
    requires l <= |text| && l <= i <= LineEnd(text, l) && '\n' !in piece && Occurs(text, piece, i)
    ensures i + |piece| <= LineEnd(text, l)
  {
    if i + |piece| > LineEnd(text, l) {
      PieceHolds(text, piece, i, LineEnd(text, l));
    }
  }

  lemma OccursInSlice(text: string, piece: string, l: nat, e: nat, i: nat)
    requires l <= i && i + |piece| <= e <= |text|
    ensures Occurs(text, piece, i) <==> Occurs(text[l..e], piece, i - l)
  {
    SliceOfSlice(text, l, e, i - l, |piece|);
  }

  lemma SliceOfSlice(text: string, l: nat, e: nat, i: nat, n: nat)
    requires l + i + n <= e <= |text|
    ensures text[l..e][i..i + n] == text[l + i..l + i + n]
  {
    var a, b := text[l..e][i..i + n], text[l + i..l + i + n];
    forall k | 0 <= k < n ensures a[k] == b[k] {
      assert text[l..e][i + k] == text[l + i + k];
    }
  }

  /** A piece without newlines occurs in the text from inside a line exactly when it occurs in that line. */
  lemma OccursInLine(text: string, piece: string, l: nat, i: nat)
    requires l <= |text| && l <= i <= LineEnd(text, l) && '\n' !in piece
    ensures Occurs(text, piece, i) <==> Occurs(Line(text, l), piece, i - l)
  {
    var e := LineEnd(text, l);
    if i + |piece| <= e {
      OccursInSlice(text, piece, l, e, i);
    } else if Occurs(text, piece, i) {
      StaysOnLine(text, piece, l, i);
    }
  }

  lemma OnLine(text: string, key: string, l: nat, i: nat)
    requires IsLineStart(text, l) && l <= i <= LineEnd(text, l) && '\n' !in key
    ensures OnDefineLine(text, key, i) <==>
              Occurs(Line(text, l), "define", 0) && Occurs(Line(text, l), key, i - l)
  {
    LineOfIn(text, l, i);
    OccursInLine(text, key, l, i);
    OccursInLine(text, "define", l, l);
  }

  lemma LineHasNone(text: string, key: string, l: nat)
    requires IsLineStart(text, l) && '\n' !in key && !IsDefinition(Line(text, l), key) && NoneBefore(text, key, l)
    ensures NoneBefore(text, key, LineEnd(text, l) + 1)
  {
    forall i | l <= i <= LineEnd(text, l) ensures !OnDefineLine(text, key, i) {
      OnLine(text, key, l, i);
    }
  }

  lemma NoneOnLineBefore(text: string, key: string, l: nat, at: nat)
    requires IsLineStart(text, l) && '\n' !in key && NoneBefore(text, key, l) && l <= at <= LineEnd(text, l)
    requires forall i :: 0 <= i < at - l ==> !Occurs(Line(text, l), key, i)
    ensures NoneBefore(text, key, at)
  {
    forall i | l <= i < at ensures !OnDefineLine(text, key, i) {
      OnLine(text, key, l, i);
    }
  }

  /** Where the key is on a definition line. */
  lemma MatchIsOnLine(text: string, key: string, l: nat)
    requires l <= |text| && IsDefinition(Line(text, l), key)
    ensures var at := MatchOn(text, key, l);
      && l <= at <= LineEnd(text, l) && Occurs(Line(text, l), key, at - l)
      && forall i :: 0 <= i < at - l ==> !Occurs(Line(text, l), key, i)
  {}

  lemma LineHasFirst(text: string, key: string, l: nat)
    requires IsLineStart(text, l) && '\n' !in key && IsDefinition(Line(text, l), key) && NoneBefore(text, key, l)
    ensures IsFirst(text, key, MatchOn(text, key, l))
  {
    var at := MatchOn(text, key, l);
    MatchIsOnLine(text, key, l);
    OnLine(text, key, l, at);
    NoneOnLineBefore(text, key, l, at);
  }

  /** A line scan that found this line, or none, found the first match. */
  ghost predicate FoundFirst(text: string, key: string, d: Option<nat>) {
    if d.Some? then d.value <= |text| && IsDefinition(Line(text, d.value), key)
                    && IsFirst(text, key, MatchOn(text, key, d.value))
    else NoneBefore(text, key, |text| + 1)
  }

  lemma FirstDefinitionHere(text: string, key: string, l: nat)
    requires l <= |text| && IsDefinition(Line(text, l), key)
    ensures FirstDefinition(text, key, l) == Some(l)
  {}

  lemma FirstDefinitionStep(text: string, key: string, l: nat)
    requires l <= |text| && !IsDefinition(Line(text, l), key)
    ensures FirstDefinition(text, key, l) ==
              if LineEnd(text, l) == |text| then None else FirstDefinition(text, key, LineEnd(text, l) + 1)
  {}

  /** The scan finds the line of the first match, and nothing exactly when there is none. */
  lemma {:induction false} ScanFindsFirst(text: string, key: string, l: nat)
    requires IsLineStart(text, l) && '\n' !in key && NoneBefore(text, key, l)
    ensures FoundFirst(text, key, FirstDefinition(text, key, l))
    decreases |text| - l
  {
    if IsDefinition(Line(text, l), key) {
      LineHasFirst(text, key, l);
      FirstDefinitionHere(text, key, l);
    } else {
      ScanPast(text, key, l);
      if LineEnd(text, l) < |text| {
        ScanFindsFirst(text, key, LineEnd(text, l) + 1);
      }
    }
  }

  lemma ScanPast(text: string, key: string, l: nat)
    requires IsLineStart(text, l) && '\n' !in key && NoneBefore(text, key, l) && !IsDefinition(Line(text, l), key)
    ensures NoneBefore(text, key, LineEnd(text, l) + 1)
    ensures LineEnd(text, l) < |text| ==>
              IsLineStart(text, LineEnd(text, l) + 1)
              && FirstDefinition(text, key, l) == FirstDefinition(text, key, LineEnd(text, l) + 1)
    ensures LineEnd(text, l) == |text| ==> FirstDefinition(text, key, l) == None
  {
    LineHasNone(text, key, l);
    FirstDefinitionStep(text, key, l);
    if LineEnd(text, l) < |text| {
      NextLineStart(text, LineEnd(text, l));
    }
  }

  lemma NextLineStart(text: string, e: nat)
    requires e < |text| && text[e] == '\n'
    ensures IsLineStart(text, e + 1)
  {}

  lemma FoundLine(text: string, key: string, l: Option<nat>)
    requires FoundFirst(text, key, l)
    ensures KeyPoint(text, key) == PointOnLine(text, key, l)
  {
    if l.Some? {
      KeyPointAt(text, key, MatchOn(text, key, l.value));
    } else {
      KeyPointNone(text, key);
    }
  }

  /** For every text and every name without a newline, the index-based search finds what the
      line-based one finds and inserts at the same place. */
  lemma SearchRefinesLines(text: string, func: string)
    requires '\n' !in func
    ensures ProbePoint(text, func) == LinePoint(text, func)
  {
    ScanFindsFirst(text, KeyOf(func), 0);
    FoundLine(text, KeyOf(func), FirstDefinition(text, KeyOf(func), 0));
  }

  // ---------- the rest of the text ----------

  /** The lines of a text, without their newlines. */
  function Lines(text: string): (lines: seq<string>)
    ensures |lines| >= 1
  {
    Split(text, '\n')
  }

  lemma ProbeIsALine()
    ensures AtBoundary(PROBE, '\n') && Lines(PROBE) == [PROBE[..|PROBE| - 1], ""]
  {
    var body := PROBE[..|PROBE| - 1];
    assert '\n' !in body by { assert body == "  %persist_probe = add i32 0, 0"; }
    SplitFirst(body, "", '\n');
    assert body + (['\n'] + "") == PROBE;
  }

  /** The probe was added to `text` as one whole line, all other lines staying as they were. */
  ghost predicate HasOneMoreLine(text: string, out: string) {
    exists k: nat :: k <= |Lines(text)| && Lines(out) == Lines(text)[..k] + [PROBE[..|PROBE| - 1]] + Lines(text)[k..]
  }

  /** The lines of a text with the probe put at a line start. */
  lemma LinesWithProbe(a: string, b: string)
    requires AtBoundary(a, '\n')
    ensures Lines(a + (PROBE + b)) ==
              Lines(a)[..|Lines(a)| - 1] + ([PROBE[..|PROBE| - 1]] + Lines(b))
  {
    ProbeIsALine();
    SplitAtBoundary(PROBE, b, '\n');
    SplitAtBoundary(a, PROBE + b, '\n');
  }

  lemma InsertedLine(text: string, p: nat)
    requires IsLineStart(text, p)
    ensures HasOneMoreLine(text, Inserted(text, p))
    ensures Inserted(text, p)[..p] + Inserted(text, p)[p + |PROBE|..] == text
  {
    var a, b := text[..p], text[p..];
    var first := Lines(a)[..|Lines(a)| - 1];
    SplitAtBoundary(a, b, '\n');
    LinesWithProbe(a, b);
    assert a + b == text;
    PutBetween(first, Lines(b), PROBE[..|PROBE| - 1]);
    assert Inserted(text, p) == a + (PROBE + b);
    assert Lines(text) == first + Lines(b) && |first| <= |Lines(text)|;
  }

  lemma PutBetween(first: seq<string>, rest: seq<string>, line: string)
    ensures var all := first + rest;
      first + ([line] + rest) == all[..|first|] + [line] + all[|first|..]
  {}

  /** Every successful insertion adds the probe as one whole line and keeps all other lines, in
      order; deleting it gives the text back. */
  lemma ProbeAddsOneLine(text: string, func: string)
    requires ProbeSpec(text, func).Some?
    ensures HasOneMoreLine(text, ProbeSpec(text, func).value)
    ensures exists p: nat :: p <= |text| && ProbeSpec(text, func).value == Inserted(text, p)
              && Inserted(text, p)[..p] + Inserted(text, p)[p + |PROBE|..] == text
  {
    InsertedLine(text, ProbePoint(text, func).value);
  }

  /** The probe directly follows the line of the brace exactly when that line ends in a newline;
      otherwise it becomes the first line of the file, outside the function. */
  lemma InsertionPlace(text: string, at: nat)
    requires Find(text, "{", at) >= 0
    ensures var e := LineEnd(text, Find(text, "{", at));
      InsertionPoint(text, at) == Some(if e < |text| then e + 1 else 0)
  {
    var brace := Find(text, "{", at);
    NewlineIsLineEnd(text, brace);
  }

  lemma {:induction false} NewlineIsLineEnd(text: string, l: nat)
    requires l <= |text|
    ensures Find(text, "\n", l) == if LineEnd(text, l) < |text| then LineEnd(text, l) else -1
    decreases |text| - l
  {
    if l < |text| {
      assert text[l..l + 1] == [text[l]];
      if text[l] != '\n' {
        NewlineIsLineEnd(text, l + 1);
      }
    }
  }
}
