/**
 * The selection list panel (src/components/PolygonPanel.tsx): visibility toggles, deletion after
 * confirmation, and inline renaming with trimming, a character pattern and a duplicate check.
 */
module PolygonPanel {
  import opened Wrappers
  import opened Types
  import UsePolygon

  /**
   * The characters that JavaScript's `trim` removes and that `\s` matches: the ECMAScript white
   * space and line terminator code points.
   */
  predicate IsJsSpace(c: char) {
    var n := c as int;
    n == 0x09 || n == 0x0A || n == 0x0B || n == 0x0C || n == 0x0D || n == 0x20 || n == 0xA0
    || n == 0x1680 || (0x2000 <= n <= 0x200A) || n == 0x2028 || n == 0x2029 || n == 0x202F
    || n == 0x205F || n == 0x3000 || n == 0xFEFF
  }

  /** How many white-space characters lead `s`: the index of its first other character. */
  function LeadingSpaces(s: string): (n: nat)
    ensures n <= |s|
    ensures forall k :: 0 <= k < n ==> IsJsSpace(s[k])
    ensures n < |s| ==> !IsJsSpace(s[n])
  {
    if s == [] || !IsJsSpace(s[0]) then 0 else 1 + LeadingSpaces(s[1..])
  }

  /** How many white-space characters end `s`. */
  function TrailingSpaces(s: string): (n: nat)
    ensures n <= |s|
    ensures forall k :: |s| - n <= k < |s| ==> IsJsSpace(s[k])
    ensures n < |s| ==> !IsJsSpace(s[|s| - 1 - n])
  {
    if s == [] || !IsJsSpace(s[|s| - 1]) then 0 else 1 + TrailingSpaces(s[..|s| - 1])
  }

  /**
   * `String.prototype.trim`: the slice of `s` left after removing white space at both ends; it
   * neither starts nor ends with white space, and everything cut off either side is white space.
   */
  function Trim(s: string): (r: string)
    ensures LeadingSpaces(s) + |r| <= |s|
    ensures r == s[LeadingSpaces(s)..LeadingSpaces(s) + |r|]
    ensures r == [] || (!IsJsSpace(r[0]) && !IsJsSpace(r[|r| - 1]))
    ensures forall k :: 0 <= k < LeadingSpaces(s) ==> IsJsSpace(s[k])
    ensures forall k :: LeadingSpaces(s) + |r| <= k < |s| ==> IsJsSpace(s[k])
  {
    var a := LeadingSpaces(s);
    var t := s[a..];
    var b := TrailingSpaces(t);
    assert forall k :: a + |t| - b <= k < |s| ==> s[k] == t[k - a];
    s[a..|s| - b]
  }

  /** A text that neither starts nor ends with white space is its own trim. */
  lemma TrimPlain(t: string)
    requires t != [] && !IsJsSpace(t[0]) && !IsJsSpace(t[|t| - 1])
    ensures Trim(t) == t
  {
    assert LeadingSpaces(t) == 0;
    assert t[0..] == t;
    assert TrailingSpaces(t) == 0;
    assert t[0..|t|] == t;
  }

  /** Trimming twice is trimming once. */
  lemma TrimIdempotent(s: string)
    ensures Trim(Trim(s)) == Trim(s)
  {
    var t := Trim(s);
    if t != [] {
      TrimPlain(t);
    }
  }

  /** One character of the label pattern `[a-zA-Z0-9\-\_\(\)\+\'\&\.\s]`. */
  predicate IsLabelChar(c: char) {
    ('a' <= c <= 'z') || ('A' <= c <= 'Z') || ('0' <= c <= '9')
    || c == '-' || c == '_' || c == '(' || c == ')' || c == '+' || c == '\'' || c == '&' || c == '.'
    || IsJsSpace(c)
  }

  /** The whole-string pattern `^[...]+$`: non-empty and made only of label characters. */
  predicate MatchesLabelPattern(t: string) {
    |t| > 0 && forall k :: 0 <= k < |t| ==> IsLabelChar(t[k])
  }

  /** Some entry other than slot `idx` already carries the label `t` (exact, case-sensitive). */
  predicate IsDuplicate(sels: seq<Selection>, idx: nat, t: string) {
    exists i :: 0 <= i < |sels| && i != idx && sels[i].name == t
  }

  /** The result of confirming an edit. */
  datatype EditOutcome = InvalidLabel | DuplicateLabel | Renamed(text: string)

  /**
   * The decision on confirming `newLabel` for slot `idx`: the trimmed text is checked against the
   * pattern first, then against the other entries' labels; only a text passing both is stored.
   */
  function EditDecision(sels: seq<Selection>, idx: nat, newLabel: string): (r: EditOutcome)
    ensures r == InvalidLabel <==> !MatchesLabelPattern(Trim(newLabel))
    ensures r == DuplicateLabel <==> MatchesLabelPattern(Trim(newLabel)) && IsDuplicate(sels, idx, Trim(newLabel))
    ensures r.Renamed? <==> MatchesLabelPattern(Trim(newLabel)) && !IsDuplicate(sels, idx, Trim(newLabel))
    ensures r.Renamed? ==> r.text == Trim(newLabel)
  {
    var trimmed := Trim(newLabel);
    if !MatchesLabelPattern(trimmed) then InvalidLabel
    else if IsDuplicate(sels, idx, trimmed) then DuplicateLabel
    else Renamed(trimmed)
  }

  /** The list after a successful edit: only the label of slot `idx` changes. */
  function RelabeledAt(prev: seq<Selection>, idx: nat, t: string): (r: seq<Selection>)
    requires idx < |prev|
    ensures |r| == |prev|
    ensures forall k :: 0 <= k < |prev| && k != idx ==> r[k] == prev[k]
    ensures r[idx].name == t && r[idx].(name := prev[idx].name) == prev[idx]
  {
    prev[idx := prev[idx].(name := t)]
  }

  /** The updater of a successful edit: a copy of `prev` with the label of slot `idx` replaced. */
  method RelabelUpdater(prev: seq<Selection>, idx: nat, t: string) returns (updated: seq<Selection>)
    requires idx < |prev|
    ensures updated == RelabeledAt(prev, idx, t)
  {
    updated := CopyAndOverwrite(prev, idx, prev[idx].(name := t));
    assert forall k :: 0 <= k < |prev| ==> updated[k] == RelabeledAt(prev, idx, t)[k];
  }

  /**
   * The list after deleting slot `index`, as the filter on positions computes it: the entry at
   * `index` is dropped and the rest keep their order; an index past the end removes nothing.
   */
  function RemoveAt(prev: seq<Selection>, index: nat): (r: seq<Selection>)
    ensures index < |prev| ==> r == prev[..index] + prev[index + 1..]
    ensures index >= |prev| ==> r == prev
  {
    if prev == [] then []
    else
      var n := |prev| - 1;
      var init := prev[..n];
      RemoveAt(init, index) + (if n != index then [prev[n]] else [])
  }

  /** Deletion shifts every later entry down by one and leaves every earlier entry in place. */
  lemma RemoveAtShifts(prev: seq<Selection>, index: nat)
    requires index < |prev|
    ensures |RemoveAt(prev, index)| == |prev| - 1
    ensures forall k :: 0 <= k < index ==> RemoveAt(prev, index)[k] == prev[k]
    ensures forall k :: index <= k < |prev| - 1 ==> RemoveAt(prev, index)[k] == prev[k + 1]
  {
  }

  ghost predicate DistinctLabels(sels: seq<Selection>) {
    forall i, j :: 0 <= i < j < |sels| ==> sels[i].name != sels[j].name
  }

  /** A successful edit keeps the labels of the list pairwise distinct. */
  lemma RenameKeepsLabelsDistinct(sels: seq<Selection>, idx: nat, newLabel: string)
    requires idx < |sels| && DistinctLabels(sels) && EditDecision(sels, idx, newLabel).Renamed?
    ensures DistinctLabels(RelabeledAt(sels, idx, EditDecision(sels, idx, newLabel).text))
  {
    var t := EditDecision(sels, idx, newLabel).text;
    var r := RelabeledAt(sels, idx, t);
    forall i, j | 0 <= i < j < |r| ensures r[i].name != r[j].name {
      if i == idx {
        assert r[j] == sels[j];
        assert !IsDuplicate(sels, idx, t);
      } else if j == idx {
        assert r[i] == sels[i];
        assert !IsDuplicate(sels, idx, t);
      }
    }
  }

  /** A stored label is non-empty, already trimmed, and made only of label characters. */
  lemma RenamedLabelIsClean(sels: seq<Selection>, idx: nat, newLabel: string)
    requires EditDecision(sels, idx, newLabel).Renamed?
    ensures var t := EditDecision(sels, idx, newLabel).text;
      t != "" && Trim(t) == t && MatchesLabelPattern(t)
  {
    TrimIdempotent(newLabel);
  }

  /** An entry may keep its own label: only the other slots are compared. */
  lemma OwnLabelAccepted(sels: seq<Selection>, idx: nat)
    requires idx < |sels| && DistinctLabels(sels) && MatchesLabelPattern(sels[idx].name)
    requires Trim(sels[idx].name) == sels[idx].name
    ensures EditDecision(sels, idx, sels[idx].name) == Renamed(sels[idx].name)
  {
    forall i | 0 <= i < |sels| && i != idx ensures sels[i].name != sels[idx].name {
      if i < idx {
        assert sels[i].name != sels[idx].name;
      } else {
        assert sels[idx].name != sels[i].name;
      }
    }
  }

  /** Trimming drops the trailing space of "A ". */
  lemma TrimTrailingSpaceExample()
    ensures Trim("A ") == "A"
  {
    var a, sp := 'A', ' ';
    assert !IsJsSpace(a) && IsJsSpace(sp);
    assert "A "[0] == a && "A "[1] == sp;
    assert LeadingSpaces("A ") == 0;
    assert "A "[0..] == "A ";
    assert "A "[..1] == "A";
    assert TrailingSpaces("A") == 0;
    assert TrailingSpaces("A ") == 1;
    assert "A "[0..1] == "A";
  }

  /** The list labelled "A", "B" that the edit examples rename slot 1 of. */
  function TwoLabels(s: Selection): seq<Selection> {
    [s.(name := "A"), s.(name := "B")]
  }

  /** Renaming "B" to "A" is refused as a duplicate of slot 0. */
  lemma DuplicateExample(s: Selection)
    ensures EditDecision(TwoLabels(s), 1, "A") == DuplicateLabel
  {
    TrimPlain("A");
    assert MatchesLabelPattern("A");
    assert TwoLabels(s)[0].name == "A";
  }

  /** Renaming "B" to "A " is refused too: the text is trimmed before the comparison. */
  lemma TrimmedDuplicateExample(s: Selection)
    ensures EditDecision(TwoLabels(s), 1, "A ") == DuplicateLabel
  {
    TrimTrailingSpaceExample();
    assert MatchesLabelPattern("A");
    assert TwoLabels(s)[0].name == "A";
  }

  /** Renaming "B" to "C-1" is accepted. */
  lemma AcceptedExample(s: Selection)
    ensures EditDecision(TwoLabels(s), 1, "C-1") == Renamed("C-1")
  {
    TrimPlain("C-1");
    assert MatchesLabelPattern("C-1");
    assert TwoLabels(s)[0].name != "C-1";
  }

  /** Renaming "B" to "a!" fails the pattern. */
  lemma InvalidExample(s: Selection)
    ensures EditDecision(TwoLabels(s), 1, "a!") == InvalidLabel
  {
    TrimPlain("a!");
    assert !IsLabelChar("a!"[1]);
  }

  datatype Key = Enter | Escape | OtherKey

  /** The panel's own state: which slot is being edited and the text in its input. */
  class PolygonPanel {
    const state: SelectionsState
    var editingIndex: Option<nat>
    var newLabel: string

    constructor (state: SelectionsState)
      ensures this.state == state && editingIndex == None && newLabel == ""
    {
      this.state := state;
      editingIndex := None;
      newLabel := "";
    }

    /** The checkbox of slot `index`: negates that slot's visibility flag. */
    method ToggleVisibility(index: nat)
      requires index < |state.selections|
      modifies state
      ensures state.selections == ToggledAt(old(state.selections), index)
    {
      state.selections := ToggleUpdater(state.selections, index);
    }

    /** The bin icon of slot `index`; `confirmed` is the answer to the confirmation dialog. */
    method DeleteSelection(index: nat, confirmed: bool)
      modifies state
      ensures state.selections == if confirmed then RemoveAt(old(state.selections), index) else old(state.selections)
    {
      if confirmed {
        state.selections := RemoveAt(state.selections, index);
      }
    }

    /** The pen icon of slot `idx`: starts editing it with its current label in the input. */
    method StartEdit(idx: nat)
      requires idx < |state.selections|
      modifies this`editingIndex, this`newLabel
      ensures editingIndex == Some(idx) && newLabel == state.selections[idx].name
    {
      editingIndex := Some(idx);
      newLabel := state.selections[idx].name;
    }

    /** Typing in the label input. */
    method ChangeLabel(text: string)
      modifies this`newLabel
      ensures newLabel == text
    {
      newLabel := text;
    }

    /**
     * Confirming the edit of slot `idx`. A rejected text (pattern or duplicate) changes neither
     * the list nor the editing state; an accepted one is stored in slot `idx` and editing ends.
     */
    method ConfirmEdit(idx: nat) returns (outcome: EditOutcome)
      requires idx < |state.selections|
      modifies this`editingIndex, state
      ensures outcome == EditDecision(old(state.selections), idx, newLabel)
      ensures outcome.Renamed? ==> state.selections == RelabeledAt(old(state.selections), idx, outcome.text)
      ensures outcome.Renamed? ==> editingIndex == None
      ensures !outcome.Renamed? ==> state.selections == old(state.selections) && editingIndex == old(editingIndex)
    {
      outcome := EditDecision(state.selections, idx, newLabel);
      if outcome.Renamed? {
        state.selections := RelabelUpdater(state.selections, idx, outcome.text);
        editingIndex := None;
      }
    }

    /** A key in the label input of slot `idx`: Enter confirms, Escape cancels editing. */
    method KeyDown(key: Key, idx: nat) returns (outcome: Option<EditOutcome>)
      requires idx < |state.selections|
      modifies this`editingIndex, state
      ensures key == Enter ==> outcome == Some(EditDecision(old(state.selections), idx, newLabel))
      ensures key == Enter && outcome.value.Renamed? ==>
        state.selections == RelabeledAt(old(state.selections), idx, outcome.value.text) && editingIndex == None
      ensures key == Enter && !outcome.value.Renamed? ==>
        state.selections == old(state.selections) && editingIndex == old(editingIndex)
      ensures key != Enter ==> outcome == None && state.selections == old(state.selections)
      ensures key == Escape ==> editingIndex == None
      ensures key == OtherKey ==> editingIndex == old(editingIndex)
    {
      outcome := None;
      if key == Enter {
        var o := ConfirmEdit(idx);
        outcome := Some(o);
      } else if key == Escape {
        editingIndex := None;
      }
    }

    /** The mode button: flips the hook's drawing mode and leaves its buffer alone. */
    method ToggleDrawingMode(hook: UsePolygon.PolygonHook)
      modifies hook`isDrawingMode
      ensures hook.isDrawingMode == !old(hook.isDrawingMode)
    {
      hook.SetDrawingMode(!hook.isDrawingMode);
    }
  }
}
