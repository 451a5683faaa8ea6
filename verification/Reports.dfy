/** A decoded analyzer report, as far as the scripts read it. */
module Reports {
  import opened Wrappers

  /** The file of a step: an index into the report's source files, or any other value as text. */
  datatype FileRef = FileIndex(index: int) | OtherFile(text: string)

  datatype Step = Step(funcKey: Option<string>, funcName: Option<string>, line: Option<int>, file: FileRef)

  datatype Item = Item(valid: Option<bool>, steps: seq<Step>)

  datatype BugType = BugType(name: Option<string>, bugType: Option<string>, items: seq<Item>)

  datatype Report = Report(srcFiles: seq<string>, bugTypes: seq<BugType>)

  /** Python's `a or b` for optional strings: the empty string counts as missing. */
  function Or(a: Option<string>, b: Option<string>): Option<string> {
    if a.Some? && a.value != "" then a else b
  }

  function FuncOf(step: Step): Option<string> {
    Or(step.funcKey, step.funcName)
  }

  // ---------- the items of a report ----------

  /** An item together with its bug type. */
  type TypedItem = (BugType, Item)

  function TypedItems(bugType: BugType, items: seq<Item>): seq<TypedItem> {
    seq(|items|, i requires 0 <= i < |items| => (bugType, items[i]))
  }

  /** All items, as the nested loops come to them. */
  function Items(bugTypes: seq<BugType>): seq<TypedItem> {
    if bugTypes == [] then []
    else
      var last := bugTypes[|bugTypes| - 1];
      Items(bugTypes[..|bugTypes| - 1]) + TypedItems(last, last.items)
  }

  lemma ItemsPlus(bugTypes: seq<BugType>, b: nat)
    requires b < |bugTypes|
    ensures Items(bugTypes[..b + 1]) == Items(bugTypes[..b]) + TypedItems(bugTypes[b], bugTypes[b].items)
  {
    assert bugTypes[..b + 1][..b] == bugTypes[..b];
  }

  lemma TypedItemsPlus(before: seq<TypedItem>, bugType: BugType, items: seq<Item>, i: nat)
    requires i < |items|
    ensures before + TypedItems(bugType, items[..i + 1]) ==
            (before + TypedItems(bugType, items[..i])) + [(bugType, items[i])]
  {
    assert TypedItems(bugType, items[..i + 1]) == TypedItems(bugType, items[..i]) + [(bugType, items[i])];
  }

  /** The place of an item: a bug type, and an item of that. */
  type Place = (nat, nat)

  predicate IsPlace(bugTypes: seq<BugType>, at: Place) {
    at.0 < |bugTypes| && at.1 < |bugTypes[at.0].items|
  }

  function ItemAt(bugTypes: seq<BugType>, at: Place): TypedItem
    requires IsPlace(bugTypes, at)
  {
    (bugTypes[at.0], bugTypes[at.0].items[at.1])
  }

  /** Before in the report. */
  predicate Precedes(a: Place, b: Place) {
    a.0 < b.0 || (a.0 == b.0 && a.1 < b.1)
  }

  /** Every place once, in order, with its item. */
  ghost predicate ArePlaces(items: seq<TypedItem>, bugTypes: seq<BugType>, at: seq<Place>) {
    && |at| == |items|
    && (forall k :: 0 <= k < |at| ==> IsPlace(bugTypes, at[k]) && items[k] == ItemAt(bugTypes, at[k]))
    && (forall j, k :: 0 <= j < k < |at| ==> Precedes(at[j], at[k]))
    && (forall x :: IsPlace(bugTypes, x) ==> x in at)
  }

  function TypePlaces(b: nat, n: nat): seq<Place> {
    seq(n, i requires 0 <= i < n => (b, i))
  }

  /** The list holds every item of the report once, in the report's order. */
  lemma {:induction false} ItemsInOrder(bugTypes: seq<BugType>) returns (at: seq<Place>)
    ensures ArePlaces(Items(bugTypes), bugTypes, at)
  {
    if bugTypes == [] {
      at := [];
    } else {
      var n := |bugTypes| - 1;
      var before := ItemsInOrder(bugTypes[..n]);
      at := before + TypePlaces(n, |bugTypes[n].items|);
      OneMoreType(bugTypes, before);
    }
  }

  lemma OneMoreType(bugTypes: seq<BugType>, before: seq<Place>)
    requires bugTypes != [] && ArePlaces(Items(bugTypes[..|bugTypes| - 1]), bugTypes[..|bugTypes| - 1], before)
    ensures ArePlaces(Items(bugTypes), bugTypes, before + TypePlaces(|bugTypes| - 1, |bugTypes[|bugTypes| - 1].items|))
  {
    var n := |bugTypes| - 1;
    var items, at := Items(bugTypes), before + TypePlaces(n, |bugTypes[n].items|);
    forall k | 0 <= k < |at| ensures IsPlace(bugTypes, at[k]) && items[k] == ItemAt(bugTypes, at[k]) {
      if k < |before| {
        assert IsPlace(bugTypes[..n], before[k]);
      }
    }
    forall j, k | 0 <= j < k < |at| ensures Precedes(at[j], at[k]) {
      if k < |before| {
        assert Precedes(before[j], before[k]);
      } else if j < |before| {
        assert IsPlace(bugTypes[..n], before[j]);
      }
    }
    forall x: Place | IsPlace(bugTypes, x) ensures x in at {
      if x.0 < n {
        assert IsPlace(bugTypes[..n], x);
      } else {
        assert at[|before| + x.1] == x;
      }
    }
  }
}
