/**
 * The SVG plot (src/components/Plot.tsx): gray dots for the points no shown selection holds, an
 * outline with a label at its vertex mean for each shown selection that has a polygon for this
 * plot, the points of each shown selection in its colour (joined to the circles of a class named
 * after the label's base64), the in-progress polyline, and click forwarding in drawing mode.
 * Everything is placed by the page's scales as given.
 */
module Plot {
  import opened Wrappers
  import opened Types
  import opened Geometry
  import opened Scales
  import PolygonPanel

  /** The gray dots: the data points whose index no shown selection holds, in data order. */
  function Unselected(data: seq<DataPoint>, sels: seq<Selection>, scales: ScalePair, fx: Field, fy: Field): (r: seq<Dot>)
    requires scales.HasDomains()
  {
    DotsAt(FilterIndices(|data|, ActiveIndices(sels), false), data, scales, fx, fy)
  }

  /**
   * Exactly the data points outside every shown selection are gray, once each, in ascending
   * index order, at their positions under the page's scales.
   */
  lemma UnselectedIff(data: seq<DataPoint>, sels: seq<Selection>, scales: ScalePair, fx: Field, fy: Field, i: nat)
    requires scales.HasDomains()
    ensures (exists t :: 0 <= t < |Unselected(data, sels, scales, fx, fy)| && Unselected(data, sels, scales, fx, fy)[t].index == i)
      <==> i < |data| && !exists k :: 0 <= k < |sels| && Shown(sels[k]) && i in sels[k].indices
    ensures forall t, u :: 0 <= t < u < |Unselected(data, sels, scales, fx, fy)| ==>
      Unselected(data, sels, scales, fx, fy)[t].index < Unselected(data, sels, scales, fx, fy)[u].index
    ensures forall t :: 0 <= t < |Unselected(data, sels, scales, fx, fy)| ==>
      Unselected(data, sels, scales, fx, fy)[t].at == scales.Position(data[Unselected(data, sels, scales, fx, fy)[t].index], fx, fy)
  {
    var gray := FilterIndices(|data|, ActiveIndices(sels), false);
    var r := Unselected(data, sels, scales, fx, fy);
    FilterIndicesMembers(|data|, ActiveIndices(sels), false);
    assert forall t :: 0 <= t < |r| ==> r[t].index == gray[t];
    assert (exists t :: 0 <= t < |r| && r[t].index == i) <==> i in gray;
  }

  /** The outline and label of one selection, drawn with its polygon for this plot as stored. */
  function SvgOutline(slot: nat, sel: Selection, plotId: PlotId): (r: seq<Mark>)
    ensures r != [] <==> Shown(sel) && PolygonFor(sel, plotId) != []
    ensures r != [] ==> r == [Outline(slot, PolygonFor(sel, plotId), sel.color),
                              Caption(slot, sel.name, Centroid(PolygonFor(sel, plotId)), sel.color)]
  {
    var poly := PolygonFor(sel, plotId);
    if !Shown(sel) || poly == [] then []
    else [Outline(slot, poly, sel.color), Caption(slot, sel.name, Centroid(poly), sel.color)]
  }

  /** The outline pass over the list. */
  function SvgOutlines(sels: seq<Selection>, plotId: PlotId): seq<Mark> {
    if sels == [] then []
    else
      var n := |sels| - 1;
      SvgOutlines(sels[..n], plotId) + SvgOutline(n, sels[n], plotId)
  }

  /** An outline mark is in the pass exactly when it is the outline of the selection of its slot. */
  lemma {:induction false} SvgOutlinesSlots(sels: seq<Selection>, plotId: PlotId, mk: Mark)
    ensures mk in SvgOutlines(sels, plotId) <==> mk.slot < |sels| && mk in SvgOutline(mk.slot, sels[mk.slot], plotId)
    decreases |sels|
  {
    if sels != [] {
      var n := |sels| - 1;
      var init := sels[..n];
      assert forall k :: 0 <= k < n ==> init[k] == sels[k];
      SvgOutlinesSlots(init, plotId, mk);
      var own := SvgOutline(n, sels[n], plotId);
      assert mk in own ==> mk == own[0] || mk == own[1];
    }
  }

  /**
   * Slot `k` is outlined exactly when selection `k` is shown with a non-empty polygon for this
   * plot, and the outline is that polygon as stored, with the label at its vertex mean.
   */
  lemma SvgOutlineIff(sels: seq<Selection>, plotId: PlotId, k: nat)
    ensures (exists mk :: mk in SvgOutlines(sels, plotId) && mk.Outline? && mk.slot == k)
      <==> k < |sels| && Shown(sels[k]) && PolygonFor(sels[k], plotId) != []
    ensures forall mk :: mk in SvgOutlines(sels, plotId) && mk.slot == k ==>
      && k < |sels|
      && (mk.Outline? ==> mk.vertices == PolygonFor(sels[k], plotId))
      && (mk.Caption? ==> mk.at == Centroid(PolygonFor(sels[k], plotId)) && mk.text == sels[k].name)
  {
    forall mk | mk in SvgOutlines(sels, plotId) && mk.slot == k
      ensures k < |sels| && mk in SvgOutline(k, sels[k], plotId)
    {
      SvgOutlinesSlots(sels, plotId, mk);
    }
    if k < |sels| && Shown(sels[k]) && PolygonFor(sels[k], plotId) != [] {
      var mk := SvgOutline(k, sels[k], plotId)[0];
      SvgOutlinesSlots(sels, plotId, mk);
      assert mk in SvgOutlines(sels, plotId);
    }
  }

  /**
   * The coloured dots of one selection: the data points whose index it holds, in data order;
   * an index past the end of the data draws nothing.
   */
  function SvgSelected(slot: nat, sel: Selection, data: seq<DataPoint>, scales: ScalePair, fx: Field, fy: Field): seq<Mark>
    requires scales.HasDomains()
  {
    if !Shown(sel) then []
    else
      var dots := DotsAt(FilterIndices(|data|, set i | i in sel.indices, true), data, scales, fx, fy);
      seq(|dots|, t requires 0 <= t < |dots| => Highlight(slot, dots[t], sel.color))
  }

  /** The base64 digit of a six-bit value: `A`-`Z`, `a`-`z`, `0`-`9`, then `+` and `/`. */
  function Digit(v: int): char
    requires 0 <= v < 64
  {
    if v < 26 then ('A' as int + v) as char
    else if v < 52 then ('a' as int + (v - 26)) as char
    else if v < 62 then ('0' as int + (v - 52)) as char
    else if v == 62 then '+'
    else '/'
  }

  predicate IsByte(b: int) {
    0 <= b < 256
  }

  /** The six-bit values of a group of bytes `b0 b1 b2`: the top six bits of `b0` ... */
  function First6(b0: int): (v: int)
    requires IsByte(b0)
    ensures 0 <= v < 64
  {
    b0 / 4
  }

  /** ... the low two bits of `b0` above the top four of `b1` ... */
  function Second6(b0: int, b1: int): (v: int)
    requires IsByte(b0) && IsByte(b1)
    ensures 0 <= v < 64
  {
    (b0 % 4) * 16 + b1 / 16
  }

  /** ... and the low four bits of `b1` above the top two of `b2`; the fourth is `b2 % 64`. */
  function Third6(b1: int, b2: int): (v: int)
    requires IsByte(b1) && IsByte(b2)
    ensures 0 <= v < 64
  {
    (b1 % 16) * 4 + b2 / 64
  }

  /**
   * Base64 as `btoa` writes it: every three bytes become four digits, and a last group of one or
   * two bytes is padded with `=` to four characters.
   */
  function Base64(bs: seq<int>): (r: string)
    requires forall i :: 0 <= i < |bs| ==> IsByte(bs[i])
    decreases |bs|
  {
    if |bs| == 0 then ""
    else if |bs| == 1 then
      [Digit(First6(bs[0])), Digit(Second6(bs[0], 0)), '=', '=']
    else if |bs| == 2 then
      [Digit(First6(bs[0])), Digit(Second6(bs[0], bs[1])), Digit(Third6(bs[1], 0)), '=']
    else
      [Digit(First6(bs[0])), Digit(Second6(bs[0], bs[1])), Digit(Third6(bs[1], bs[2])), Digit(bs[2] % 64)]
      + Base64(bs[3..])
  }

  /** The characters the class-name filter keeps: ASCII letters and digits. */
  predicate IsAsciiAlnum(c: char) {
    ('a' <= c <= 'z') || ('A' <= c <= 'Z') || ('0' <= c <= '9')
  }

  /** Every character other than an ASCII letter or digit replaced by `_`. */
  function Underscored(s: string): (r: string)
    ensures |r| == |s|
    ensures forall i :: 0 <= i < |s| ==> r[i] == (if IsAsciiAlnum(s[i]) then s[i] else '_')
  {
    seq(|s|, i requires 0 <= i < |s| => if IsAsciiAlnum(s[i]) then s[i] else '_')
  }

  /** `btoa` accepts a string only when every character fits in one byte. */
  predicate Latin1(text: string) {
    forall i :: 0 <= i < |text| ==> text[i] as int < 256
  }

  /**
   * `sanitizeLabel`: `"label-"` followed by the base64 of the label with `+`, `/` and `=` turned
   * into `_`, so the result is a valid class name. `btoa` throws on a character above U+00FF,
   * which is `None` here.
   */
  function SanitizeLabel(text: string): (r: Option<string>)
    ensures r.Some? <==> Latin1(text)
    ensures r.Some? ==> |r.value| >= 6 && r.value[..6] == "label-"
    ensures r.Some? ==> forall i :: 6 <= i < |r.value| ==> IsAsciiAlnum(r.value[i]) || r.value[i] == '_'
  {
    if Latin1(text) then Some("label-" + Underscored(Base64(Codes(text)))) else None
  }

  /** The character codes of a text that `btoa` accepts, one byte each. */
  function Codes(text: string): (r: seq<int>)
    requires Latin1(text)
    ensures |r| == |text| && forall i :: 0 <= i < |r| ==> IsByte(r[i]) && r[i] == text[i] as int
  {
    seq(|text|, i requires 0 <= i < |text| => text[i] as int)
  }

  /** The class a selection's dots carry, `selected-dots-` and the sanitized label. */
  function ClassName(text: string): Option<string> {
    match SanitizeLabel(text)
    case None => None
    case Some(s) => Some("selected-dots-" + s)
  }

  /**
   * Two different labels can share a class: `+` and `/` in the base64 both become `_`. `"ab>"`
   * encodes to `YWI+` and `"ab?"` to `YWI/`.
   */
  lemma ClassCollision()
    ensures "ab>" != "ab?"
    ensures ClassName("ab>") == ClassName("ab?") == Some("selected-dots-label-YWI_")
  {
    assert "ab>"[2] != "ab?"[2];
    Base64Example();
    var u := Underscored("YWI+");
    assert u[0] == 'Y' && u[1] == 'W' && u[2] == 'I' && u[3] == '_';
    assert u == "YWI_";
    var v := Underscored("YWI/");
    assert v[0] == 'Y' && v[1] == 'W' && v[2] == 'I' && v[3] == '_';
    assert v == "YWI_";
    assert "label-" + u == "label-YWI_";
    assert SanitizeLabel("ab>") == Some("label-YWI_") == SanitizeLabel("ab?");
    assert "selected-dots-" + "label-YWI_" == "selected-dots-label-YWI_";
  }

  /** The base64 of the two labels of `ClassCollision`. */
  lemma Base64Example()
    ensures Latin1("ab>") && Latin1("ab?")
    ensures Base64(Codes("ab>")) == "YWI+" && Base64(Codes("ab?")) == "YWI/"
  {
    assert Latin1("ab>") && Latin1("ab?");
    var x := Codes("ab>");
    var y := Codes("ab?");
    assert x == [97, 98, 62] && y == [97, 98, 63];
    assert First6(97) == 24 && Second6(97, 98) == 22 && Third6(98, 62) == 8 && Third6(98, 63) == 8;
    assert Digit(24) == 'Y' && Digit(22) == 'W' && Digit(8) == 'I' && Digit(62) == '+' && Digit(63) == '/';
    assert x[3..] == [] && y[3..] == [];
  }

  /**
   * The rename pattern admits every JavaScript white space, and some lie above U+00FF: `"a"`,
   * an ideographic space, `"b"` is accepted as a new label although `btoa` refuses it.
   */
  lemma WideSpaceLabel()
    ensures PolygonPanel.Trim("a\U{3000}b") == "a\U{3000}b"
    ensures PolygonPanel.MatchesLabelPattern("a\U{3000}b")
    ensures SanitizeLabel("a\U{3000}b").None?
  {
    PolygonPanel.TrimPlain("a\U{3000}b");
    assert PolygonPanel.IsLabelChar("a\U{3000}b"[1]);
    assert "a\U{3000}b"[1] as int >= 256;
  }

  /** What the selected-dot pass leaves: the circles of each class, and whether a label threw. */
  datatype Joined = Joined(groups: map<string, seq<Mark>>, threw: bool)

  /** `mk` is one of the circles the pass left in some class. */
  predicate Drawn(j: Joined, mk: Mark) {
    exists c :: c in j.groups && mk in j.groups[c]
  }

  /**
   * The selected-dot pass over the first `n` slots. A shown selection joins its dots to the
   * circles of its class, without a key: they replace whatever an earlier selection of the same
   * class left there, in its own colour. A label `btoa` refuses throws, and no later slot runs.
   */
  function JoinPass(sels: seq<Selection>, cls: seq<Option<string>>, n: nat, data: seq<DataPoint>, scales: ScalePair, fx: Field, fy: Field): Joined
    requires n <= |sels| == |cls| && scales.HasDomains()
  {
    if n == 0 then Joined(map[], false)
    else
      var prev := JoinPass(sels, cls, n - 1, data, scales, fx, fy);
      var sel := sels[n - 1];
      if prev.threw || !Shown(sel) then prev
      else match cls[n - 1]
        case None => Joined(prev.groups, true)
        case Some(c) => Joined(prev.groups[c := SvgSelected(n - 1, sel, data, scales, fx, fy)], false)
  }

  /** Every shown selection among the first `n` has a label `btoa` accepts. */
  predicate Encodable(sels: seq<Selection>, cls: seq<Option<string>>, n: nat)
    requires n <= |sels| == |cls|
  {
    forall j :: 0 <= j < n && Shown(sels[j]) ==> cls[j].Some?
  }

  /** No later shown selection among the first `n` has slot `k`'s class. */
  predicate Survives(sels: seq<Selection>, cls: seq<Option<string>>, n: nat, k: nat)
    requires k < n <= |sels| == |cls|
  {
    forall j :: k < j < n && Shown(sels[j]) ==> cls[j] != cls[k]
  }

  /** The first shown slot from `from` on whose label `btoa` refuses, or the list length. */
  function FirstThrow(sels: seq<Selection>, cls: seq<Option<string>>, from: nat): (t: nat)
    requires from <= |sels| == |cls| && Encodable(sels, cls, from)
    ensures from <= t <= |sels| && Encodable(sels, cls, t)
    ensures t < |sels| ==> Shown(sels[t]) && cls[t].None?
    decreases |sels| - from
  {
    if from == |sels| then from
    else if Shown(sels[from]) && cls[from].None? then from
    else FirstThrow(sels, cls, from + 1)
  }

  /** Each slot's class, or `None` where `btoa` refuses the label. */
  function Classes(sels: seq<Selection>): (r: seq<Option<string>>)
    ensures |r| == |sels| && forall k :: 0 <= k < |sels| ==> r[k] == ClassName(sels[k].name)
  {
    seq(|sels|, k requires 0 <= k < |sels| => ClassName(sels[k].name))
  }

  /** How far the selected-dot pass over the list gets before a label throws. */
  function Reached(sels: seq<Selection>): nat {
    FirstThrow(sels, Classes(sels), 0)
  }

  /** Every selected dot of a selection carries its slot and colour, and is one of its points. */
  lemma SvgSelectedSource(slot: nat, sel: Selection, data: seq<DataPoint>, scales: ScalePair, fx: Field, fy: Field, mk: Mark)
    requires scales.HasDomains() && mk in SvgSelected(slot, sel, data, scales, fx, fy)
    ensures mk.Highlight? && mk.slot == slot && mk.color == sel.color && Shown(sel)
    ensures mk.dot.index in sel.indices && mk.dot.index < |data|
  {
    var marked := set i | i in sel.indices;
    var chosen := FilterIndices(|data|, marked, true);
    FilterIndicesMembers(|data|, marked, true);
    var own := SvgSelected(slot, sel, data, scales, fx, fy);
    var t :| 0 <= t < |own| && own[t] == mk;
    assert mk.dot.index == chosen[t] && chosen[t] in chosen;
    assert chosen[t] in marked;
  }

  /** The pass throws exactly when some shown selection among the first `n` has a label `btoa` refuses. */
  lemma {:induction false} JoinPassThrows(sels: seq<Selection>, cls: seq<Option<string>>, n: nat, data: seq<DataPoint>, scales: ScalePair, fx: Field, fy: Field)
    requires n <= |sels| == |cls| && scales.HasDomains()
    ensures JoinPass(sels, cls, n, data, scales, fx, fy).threw <==> !Encodable(sels, cls, n)
  {
    if n > 0 {
      JoinPassThrows(sels, cls, n - 1, data, scales, fx, fy);
    }
  }

  /** After a throw the pass adds nothing: its circles are those left before the throwing slot. */
  lemma {:induction false} JoinPassStops(sels: seq<Selection>, cls: seq<Option<string>>, t: nat, n: nat, data: seq<DataPoint>, scales: ScalePair, fx: Field, fy: Field)
    requires t < n <= |sels| == |cls| && scales.HasDomains()
    requires Encodable(sels, cls, t) && Shown(sels[t]) && cls[t].None?
    ensures JoinPass(sels, cls, n, data, scales, fx, fy) == Joined(JoinPass(sels, cls, t, data, scales, fx, fy).groups, true)
  {
    JoinPassThrows(sels, cls, t, data, scales, fx, fy);
    if n > t + 1 {
      JoinPassStops(sels, cls, t, n - 1, data, scales, fx, fy);
    }
  }

  /** Every circle in a class belongs to a slot among the first `n` whose label has that class. */
  lemma {:induction false} JoinPassClasses(sels: seq<Selection>, cls: seq<Option<string>>, n: nat, data: seq<DataPoint>, scales: ScalePair, fx: Field, fy: Field, c: string, mk: Mark)
    requires n <= |sels| == |cls| && scales.HasDomains()
    requires c in JoinPass(sels, cls, n, data, scales, fx, fy).groups && mk in JoinPass(sels, cls, n, data, scales, fx, fy).groups[c]
    ensures mk.slot < n && cls[mk.slot] == Some(c)
    ensures mk in SvgSelected(mk.slot, sels[mk.slot], data, scales, fx, fy)
  {
    var prev := JoinPass(sels, cls, n - 1, data, scales, fx, fy);
    var sel := sels[n - 1];
    if prev.threw || !Shown(sel) {
      JoinPassClasses(sels, cls, n - 1, data, scales, fx, fy, c, mk);
    } else if cls[n - 1] == Some(c) {
      SvgSelectedSource(n - 1, sel, data, scales, fx, fy, mk);
    } else if cls[n - 1].None? {
      JoinPassClasses(sels, cls, n - 1, data, scales, fx, fy, c, mk);
    } else {
      assert c in prev.groups && mk in prev.groups[c];
      JoinPassClasses(sels, cls, n - 1, data, scales, fx, fy, c, mk);
    }
  }

  /** Over a prefix no label throws on, a circle left in a class is not taken over later. */
  lemma {:induction false} JoinPassSurvivor(sels: seq<Selection>, cls: seq<Option<string>>, n: nat, data: seq<DataPoint>, scales: ScalePair, fx: Field, fy: Field, c: string, mk: Mark)
    requires n <= |sels| == |cls| && scales.HasDomains() && Encodable(sels, cls, n)
    requires c in JoinPass(sels, cls, n, data, scales, fx, fy).groups && mk in JoinPass(sels, cls, n, data, scales, fx, fy).groups[c]
    ensures mk.slot < n && Survives(sels, cls, n, mk.slot)
  {
    JoinPassClasses(sels, cls, n, data, scales, fx, fy, c, mk);
    var now := JoinPass(sels, cls, n, data, scales, fx, fy);
    var prev := JoinPass(sels, cls, n - 1, data, scales, fx, fy);
    var sel := sels[n - 1];
    JoinPassThrows(sels, cls, n - 1, data, scales, fx, fy);
    if mk.slot < n - 1 {
      if Shown(sel) {
        var own := SvgSelected(n - 1, sel, data, scales, fx, fy);
        forall m | m in own
          ensures m.slot == n - 1
        {
          SvgSelectedSource(n - 1, sel, data, scales, fx, fy, m);
        }
        var c' := cls[n - 1].value;
        assert now.groups == prev.groups[c' := own];
        assert mk !in own;
        assert c' != c;
      } else {
        assert now == prev;
      }
      assert c in prev.groups && mk in prev.groups[c];
      JoinPassSurvivor(sels, cls, n - 1, data, scales, fx, fy, c, mk);
      assert Survives(sels, cls, n - 1, mk.slot);
    }
  }

  /** Over a prefix no label throws on, a surviving selection's dots stay in its class. */
  lemma {:induction false} JoinPassKeeps(sels: seq<Selection>, cls: seq<Option<string>>, n: nat, data: seq<DataPoint>, scales: ScalePair, fx: Field, fy: Field, k: nat, mk: Mark)
    requires n <= |sels| == |cls| && scales.HasDomains() && Encodable(sels, cls, n)
    requires k < n && Survives(sels, cls, n, k) && mk in SvgSelected(k, sels[k], data, scales, fx, fy)
    ensures Shown(sels[k]) && cls[k].Some?
    ensures cls[k].value in JoinPass(sels, cls, n, data, scales, fx, fy).groups
    ensures mk in JoinPass(sels, cls, n, data, scales, fx, fy).groups[cls[k].value]
  {
    SvgSelectedSource(k, sels[k], data, scales, fx, fy, mk);
    var ck := cls[k].value;
    var now := JoinPass(sels, cls, n, data, scales, fx, fy);
    var prev := JoinPass(sels, cls, n - 1, data, scales, fx, fy);
    var sel := sels[n - 1];
    JoinPassThrows(sels, cls, n - 1, data, scales, fx, fy);
    if k == n - 1 {
      assert now.groups == prev.groups[ck := SvgSelected(n - 1, sel, data, scales, fx, fy)];
    } else {
      assert Survives(sels, cls, n - 1, k);
      JoinPassKeeps(sels, cls, n - 1, data, scales, fx, fy, k, mk);
      if Shown(sel) {
        var c' := cls[n - 1].value;
        assert c' != ck;
        assert now.groups == prev.groups[c' := SvgSelected(n - 1, sel, data, scales, fx, fy)];
      } else {
        assert now == prev;
      }
    }
  }

  /**
   * Over a prefix no label throws on, a dot is drawn exactly when it is a dot of the selection of
   * its slot and no later shown selection of the prefix has the same class.
   */
  lemma JoinPassSlots(sels: seq<Selection>, cls: seq<Option<string>>, n: nat, data: seq<DataPoint>, scales: ScalePair, fx: Field, fy: Field, mk: Mark)
    requires n <= |sels| == |cls| && scales.HasDomains() && Encodable(sels, cls, n)
    ensures Drawn(JoinPass(sels, cls, n, data, scales, fx, fy), mk) <==>
      mk.slot < n && Survives(sels, cls, n, mk.slot) && mk in SvgSelected(mk.slot, sels[mk.slot], data, scales, fx, fy)
  {
    var now := JoinPass(sels, cls, n, data, scales, fx, fy);
    if Drawn(now, mk) {
      var c :| c in now.groups && mk in now.groups[c];
      JoinPassClasses(sels, cls, n, data, scales, fx, fy, c, mk);
      JoinPassSurvivor(sels, cls, n, data, scales, fx, fy, c, mk);
    }
    if mk.slot < n && Survives(sels, cls, n, mk.slot) && mk in SvgSelected(mk.slot, sels[mk.slot], data, scales, fx, fy) {
      JoinPassKeeps(sels, cls, n, data, scales, fx, fy, mk.slot, mk);
    }
  }

  /** The whole pass leaves what it had when it reached the first throwing slot, if any. */
  lemma PassLeavesReached(sels: seq<Selection>, data: seq<DataPoint>, scales: ScalePair, fx: Field, fy: Field)
    requires scales.HasDomains()
    ensures JoinPass(sels, Classes(sels), |sels|, data, scales, fx, fy).groups == JoinPass(sels, Classes(sels), Reached(sels), data, scales, fx, fy).groups
    ensures JoinPass(sels, Classes(sels), |sels|, data, scales, fx, fy).threw <==> Reached(sels) < |sels|
  {
    var t := Reached(sels);
    if t < |sels| {
      JoinPassStops(sels, Classes(sels), t, |sels|, data, scales, fx, fy);
    } else {
      JoinPassThrows(sels, Classes(sels), |sels|, data, scales, fx, fy);
    }
  }

  /**
   * Slot `k` shows data point `i` exactly when the pass reached past `k`, selection `k` is shown,
   * holds `i`, `i` names a data point, and no later reached shown selection shares its class: a
   * later selection with the same label, or one whose base64 differs only in `+`, `/` or `=`,
   * takes its circles over.
   */
  lemma SvgSelectedIff(sels: seq<Selection>, data: seq<DataPoint>, scales: ScalePair, fx: Field, fy: Field, k: nat, i: nat)
    requires scales.HasDomains()
    ensures (exists mk :: Drawn(JoinPass(sels, Classes(sels), |sels|, data, scales, fx, fy), mk) && mk.Highlight? && mk.slot == k && mk.dot.index == i)
      <==> k < Reached(sels) && Survives(sels, Classes(sels), Reached(sels), k) && Shown(sels[k]) && i in sels[k].indices && i < |data|
  {
    var t := Reached(sels);
    PassLeavesReached(sels, data, scales, fx, fy);
    var all := JoinPass(sels, Classes(sels), |sels|, data, scales, fx, fy);
    var part := JoinPass(sels, Classes(sels), t, data, scales, fx, fy);
    if mk :| Drawn(all, mk) && mk.Highlight? && mk.slot == k && mk.dot.index == i {
      assert Drawn(part, mk);
      JoinPassSlots(sels, Classes(sels), t, data, scales, fx, fy, mk);
      SvgSelectedSource(k, sels[k], data, scales, fx, fy, mk);
    }
    if k < t && Survives(sels, Classes(sels), t, k) && Shown(sels[k]) && i in sels[k].indices && i < |data| {
      var mk := SvgSelectedOf(sels, data, scales, fx, fy, k, i);
    }
  }

  /** A reached, surviving shown selection holding data point `i` has a circle for it. */
  lemma SvgSelectedOf(sels: seq<Selection>, data: seq<DataPoint>, scales: ScalePair, fx: Field, fy: Field, k: nat, i: nat)
    returns (mk: Mark)
    requires scales.HasDomains()
    requires k < Reached(sels) && Survives(sels, Classes(sels), Reached(sels), k)
    requires Shown(sels[k]) && i in sels[k].indices && i < |data|
    ensures Drawn(JoinPass(sels, Classes(sels), |sels|, data, scales, fx, fy), mk) && mk.Highlight? && mk.slot == k && mk.dot.index == i
    ensures mk.color == sels[k].color && mk.dot.at == scales.Position(data[i], fx, fy)
  {
    var sel := sels[k];
    var marked := set j | j in sel.indices;
    var chosen := FilterIndices(|data|, marked, true);
    FilterIndicesMembers(|data|, marked, true);
    assert i in marked;
    assert i in chosen;
    var t :| 0 <= t < |chosen| && chosen[t] == i;
    mk := SvgSelected(k, sel, data, scales, fx, fy)[t];
    PassLeavesReached(sels, data, scales, fx, fy);
    JoinPassSlots(sels, Classes(sels), Reached(sels), data, scales, fx, fy, mk);
    var all := JoinPass(sels, Classes(sels), |sels|, data, scales, fx, fy);
    var c :| c in JoinPass(sels, Classes(sels), Reached(sels), data, scales, fx, fy).groups && mk in JoinPass(sels, Classes(sels), Reached(sels), data, scales, fx, fy).groups[c];
    assert c in all.groups && mk in all.groups[c];
  }

  /**
   * Two shown selections with the same label, both reached: the earlier one keeps no circle,
   * since the later join takes over its class.
   */
  lemma LaterSameLabelTakesOver(sels: seq<Selection>, data: seq<DataPoint>, scales: ScalePair, fx: Field, fy: Field, k: nat, j: nat)
    requires scales.HasDomains()
    requires k < j < Reached(sels) && Shown(sels[k]) && Shown(sels[j]) && sels[k].name == sels[j].name
    ensures forall mk :: Drawn(JoinPass(sels, Classes(sels), |sels|, data, scales, fx, fy), mk) ==> mk.slot != k
  {
    PassLeavesReached(sels, data, scales, fx, fy);
    var all := JoinPass(sels, Classes(sels), |sels|, data, scales, fx, fy);
    var part := JoinPass(sels, Classes(sels), Reached(sels), data, scales, fx, fy);
    forall mk | Drawn(all, mk)
      ensures mk.slot != k
    {
      var c :| c in all.groups && mk in all.groups[c];
      assert Drawn(part, mk);
      JoinPassSlots(sels, Classes(sels), Reached(sels), data, scales, fx, fy, mk);
    }
  }

  /**
   * For a selection made by closure (indices ascending and naming data points), the SVG plot
   * draws exactly its `indices`, in the same order as the canvas layer walks them.
   */
  lemma SelectedOrderMatchesIndices(sel: Selection, n: nat)
    requires StrictlyIncreasing(sel.indices) && InRange(sel.indices, n)
    ensures FilterIndices(n, set i | i in sel.indices, true) == sel.indices
  {
    var marked := set i | i in sel.indices;
    FilterIndicesMembers(n, marked, true);
    IncreasingUnique(FilterIndices(n, marked, true), sel.indices);
  }

  /**
   * What one render of the SVG plot shows. `selected` maps each class to its circles. `complete`
   * says the render ran to its end; a render cut short by a throwing label draws no polyline and
   * installs no click handler.
   */
  datatype PlotView = PlotView(unselected: seq<Dot>, outlines: seq<Mark>, selected: map<string, seq<Mark>>,
                               complete: bool, guide: Option<seq<Point>>)

  /**
   * One render: nothing is redrawn while there is no data. Otherwise the view holds the gray dots,
   * the outlines and what the selected-dot pass left; it completes exactly when every shown label
   * encodes, and only a complete render draws the gesture polyline.
   */
  function DrawPlot(data: seq<DataPoint>, sels: seq<Selection>, drawing: seq<Point>, activePlot: PlotId, plotId: PlotId,
                    scales: ScalePair, fx: Field, fy: Field): (r: Option<PlotView>)
    requires scales.HasDomains()
    ensures r.None? <==> data == []
    ensures r.Some? ==> r.value.unselected == Unselected(data, sels, scales, fx, fy)
    ensures r.Some? ==> r.value.outlines == SvgOutlines(sels, plotId)
    ensures r.Some? ==> r.value.selected == JoinPass(sels, Classes(sels), Reached(sels), data, scales, fx, fy).groups
    ensures r.Some? ==> (r.value.complete <==> Encodable(sels, Classes(sels), |sels|))
    ensures r.Some? ==> r.value.guide == (if r.value.complete then InProgressGuide(drawing, activePlot, plotId) else None)
  {
    if data == [] then None
    else
      var joined := JoinPass(sels, Classes(sels), |sels|, data, scales, fx, fy);
      PassLeavesReached(sels, data, scales, fx, fy);
      JoinPassThrows(sels, Classes(sels), |sels|, data, scales, fx, fy);
      Some(PlotView(
        Unselected(data, sels, scales, fx, fy),
        SvgOutlines(sels, plotId),
        joined.groups,
        !joined.threw,
        if joined.threw then None else InProgressGuide(drawing, activePlot, plotId)))
  }

  /**
   * A click on the plot reaches the hook, with its pointer coordinates, only through the handler a
   * complete render installed, and only in drawing mode.
   */
  function ForwardedClick(view: Option<PlotView>, isDrawingMode: bool, mx: real, my: real, plotId: PlotId): (r: Option<PlotClick>)
    ensures r.Some? <==> view.Some? && view.value.complete && isDrawingMode
    ensures r.Some? ==> r.value.plot == plotId && r.value.x == mx && r.value.y == my
  {
    match view
    case None => None
    case Some(v) => if v.complete && isDrawingMode then Some(PlotClick(mx, my, plotId)) else None
  }

  /**
   * After a render, a click reaches the hook exactly when there is data, every shown label
   * encodes, and drawing mode is on.
   */
  lemma ClickAfterRender(data: seq<DataPoint>, sels: seq<Selection>, drawing: seq<Point>, activePlot: PlotId, plotId: PlotId,
                         scales: ScalePair, fx: Field, fy: Field, isDrawingMode: bool, mx: real, my: real)
    requires scales.HasDomains()
    ensures ForwardedClick(DrawPlot(data, sels, drawing, activePlot, plotId, scales, fx, fy), isDrawingMode, mx, my, plotId).Some?
      <==> data != [] && Encodable(sels, Classes(sels), |sels|) && isDrawingMode
  {
  }
}
