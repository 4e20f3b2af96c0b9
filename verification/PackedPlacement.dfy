/** What the packer makes is what the placement takes for granted. */
module PackedPlacement {
  import opened Bytes
  import opened Memory
  import opened Pmwl
  import opened Placement

  lemma SectionsApart(info: Info, ifms: seq<seq<byte>>, golds: seq<seq<byte>>, given: seq<int>, blob: seq<byte>, i: nat,
                      j: nat)
    requires Packs(info, ifms, golds, given, blob) && i < j < |Data(info, ifms, golds)|
    ensures |ifms| == |info.inputs| && |golds| == |info.outputs|
    ensures var p := PlanOf(info, ifms, golds, given);
      var places, data := [p.cmsOff, p.constOff] + p.places, Data(info, ifms, golds);
      && places[i] >= 0 && places[j] >= 0
      && Apart(places[i], |data[i]|, places[j], |data[j]|) && Apart(places[j], |data[j]|, places[i], |data[i]|)
  {
    SectionsDisjoint(info, ifms, golds, given, blob, i, j);
  }

  /** The data of the `i`-th tensor lies apart from the command stream and the constants. */
  lemma TensorApart(info: Info, ifms: seq<seq<byte>>, golds: seq<seq<byte>>, given: seq<int>, blob: seq<byte>, i: nat)
    requires Packs(info, ifms, golds, given, blob) && i < |ifms + golds|
    ensures |ifms| == |info.inputs| && |golds| == |info.outputs|
    ensures var p, n := PlanOf(info, ifms, golds, given), |(ifms + golds)[i]|;
      Apart(p.places[i], n, p.cmsOff, |info.cms|) && Apart(p.places[i], n, p.constOff, |info.consts|)
  {
    DataBehindCode(info, ifms, golds, i);
    SectionsApart(info, ifms, golds, given, blob, 0, i + 2);
    SectionsApart(info, ifms, golds, given, blob, 1, i + 2);
    var p := PlanOf(info, ifms, golds, given);
    PlaceBehindCode(p.cmsOff, p.constOff, p.places, i);
  }

  /** The command stream and the constants lie in the blob, apart from each other. */
  lemma CodeSections(info: Info, ifms: seq<seq<byte>>, golds: seq<seq<byte>>, given: seq<int>, blob: seq<byte>)
    requires Packs(info, ifms, golds, given, blob)
    ensures |ifms| == |info.inputs| && |golds| == |info.outputs|
    ensures var p := PlanOf(info, ifms, golds, given);
      && p.cmsOff + |info.cms| <= |blob| && p.constOff + |info.consts| <= |blob|
      && Apart(p.cmsOff, |info.cms|, p.constOff, |info.consts|)
  {
    var at, cms := SectionAt(info, ifms, golds, given, blob, 0);
    var to, consts := SectionAt(info, ifms, golds, given, blob, 1);
    assert cms == info.cms && consts == info.consts;
    SectionsApart(info, ifms, golds, given, blob, 0, 1);
  }

  lemma SectionAt(info: Info, ifms: seq<seq<byte>>, golds: seq<seq<byte>>, given: seq<int>, blob: seq<byte>, i: nat)
    returns (at: nat, part: seq<byte>)
    requires Packs(info, ifms, golds, given, blob) && i < |Data(info, ifms, golds)|
    ensures |ifms| == |info.inputs| && |golds| == |info.outputs| && part == Data(info, ifms, golds)[i]
    ensures var p := PlanOf(info, ifms, golds, given); at == ([p.cmsOff, p.constOff] + p.places)[i]
    ensures at + |part| <= |blob| && blob[at..at + |part|] == part
  {
    SectionsHoldData(info, ifms, golds, given, blob, i);
    var p := PlanOf(info, ifms, golds, given);
    at, part := ([p.cmsOff, p.constOff] + p.places)[i], Data(info, ifms, golds)[i];
  }

  /** A plan keeps the data of every tensor, of the given lengths, apart from the two code sections. */
  ghost predicate LaidOut(p: Plan, info: Info, lens: seq<nat>) {
    && |p.places| == |lens| && Apart(p.cmsOff, |info.cms|, p.constOff, |info.consts|)
    && forall i :: 0 <= i < |lens| ==> PlacedApart(p, info, i, lens[i])
  }

  ghost predicate PlacedApart(p: Plan, info: Info, i: nat, n: nat)
    requires i < |p.places|
  {
    Apart(p.places[i], n, p.cmsOff, |info.cms|) && Apart(p.places[i], n, p.constOff, |info.consts|)
  }

  function Lengths(tensors: seq<(int, int)>): (ns: seq<int>)
    ensures |ns| == |tensors| && forall i :: 0 <= i < |ns| ==> ns[i] == tensors[i].1
  {
    seq(|tensors|, i requires 0 <= i < |tensors| => tensors[i].1)
  }

  predicate AreLengths(ns: seq<int>, data: seq<seq<byte>>) {
    |ns| == |data| && forall i :: 0 <= i < |ns| ==> ns[i] == |data[i]|
  }

  lemma LengthsChecked(info: Info, ifms: seq<seq<byte>>, golds: seq<seq<byte>>, given: seq<int>, blob: seq<byte>)
    requires Packs(info, ifms, golds, given, blob)
    ensures |ifms| == |info.inputs| && |golds| == |info.outputs|
    ensures AreLengths(Lengths(info.inputs) + Lengths(info.outputs), ifms + golds)
  {
    TensorsChecked(info, ifms, golds, given, blob);
    assert AreLengths(Lengths(info.inputs), ifms) && AreLengths(Lengths(info.outputs), golds);
    LengthsOfBoth(Lengths(info.inputs), ifms, Lengths(info.outputs), golds);
  }

  lemma LengthsOfBoth(m: seq<int>, a: seq<seq<byte>>, n: seq<int>, b: seq<seq<byte>>)
    requires AreLengths(m, a) && AreLengths(n, b)
    ensures AreLengths(m + n, a + b)
  {
  }

  lemma PackedLaidOut(info: Info, ifms: seq<seq<byte>>, golds: seq<seq<byte>>, given: seq<int>, blob: seq<byte>)
    returns (p: Plan, lens: seq<nat>)
    requires Packs(info, ifms, golds, given, blob)
    ensures p == PlanOf(info, ifms, golds, given) && LaidOut(p, info, lens)
    ensures lens == Lengths(info.inputs) + Lengths(info.outputs)
    ensures p.cmsOff + |info.cms| <= |blob| && p.constOff + |info.consts| <= |blob|
  {
    p := PlanOf(info, ifms, golds, given);
    LengthsChecked(info, ifms, golds, given, blob);
    CodeSections(info, ifms, golds, given, blob);
    var data := ifms + golds;
    lens := seq(|data|, i requires 0 <= i < |data| => |data[i]|);
    assert lens == Lengths(info.inputs) + Lengths(info.outputs);
    forall i | 0 <= i < |lens|
      ensures PlacedApart(p, info, i, lens[i])
    {
      TensorApart(info, ifms, golds, given, blob, i);
    }
  }

  // ---- the header of a packed blob ----

  predicate ApartFromCode(h: Header, t: Tensor) {
    Apart(t.dataOff, t.len, h.cmsOff, h.cmsLen) && Apart(t.dataOff, t.len, h.constOff, h.constLen)
  }

  /**
   The command stream and the constants are sections of the blob, apart from each other and from every tensor's data.
   */
  predicate Sectioned(h: Header) {
    && CommandInBlob(h) && ConstInBlob(h) && Apart(h.cmsOff, h.cmsLen, h.constOff, h.constLen)
    && AllInBounds(h.inputs, h.arenaSize, h.totalLen) && AllInBounds(h.outputs, h.arenaSize, h.totalLen)
    && (forall i :: 0 <= i < |h.inputs| ==> ApartFromCode(h, h.inputs[i]))
    && (forall i :: 0 <= i < |h.outputs| ==> ApartFromCode(h, h.outputs[i]))
  }

  /** One list of tensors, the `from`-th of the plan on, against the code sections. */
  lemma SideApart(h: Header, p: Plan, info: Info, lens: seq<nat>, ts: seq<Tensor>, wanted: seq<(int, int)>, from: nat)
    requires LaidOut(p, info, lens) && from + |wanted| <= |lens| && lens[from..from + |wanted|] == Lengths(wanted)
    requires AllDescribe(ts, wanted, p.places[from..from + |wanted|])
    requires h.cmsOff == p.cmsOff && h.cmsLen == |info.cms| && h.constOff == p.constOff && h.constLen == |info.consts|
    ensures forall i :: 0 <= i < |ts| ==> ApartFromCode(h, ts[i])
  {
  }

  lemma ParsedInBounds(blob: seq<byte>)
    requires ParseHeader(blob).Ok?
    ensures var h := ParseHeader(blob).value;
      && AllInBounds(h.inputs, h.arenaSize, h.totalLen) && AllInBounds(h.outputs, h.arenaSize, h.totalLen)
      && |h.knobs| == KNOB_WORDS
  {
  }

  lemma RecoveredSections(h: Header, info: Info, ifms: seq<seq<byte>>, golds: seq<seq<byte>>, given: seq<int>, p: Plan,
                          lens: seq<nat>)
    requires |p.places| == |ifms| + |golds| && |ifms| == |info.inputs| && |golds| == |info.outputs|
    requires Recovers(h, info, golds, ifms, given, p) && LaidOut(p, info, lens)
    requires lens == Lengths(info.inputs) + Lengths(info.outputs)
    requires p.cmsOff + |info.cms| <= h.totalLen && p.constOff + |info.consts| <= h.totalLen
    requires AllInBounds(h.inputs, h.arenaSize, h.totalLen) && AllInBounds(h.outputs, h.arenaSize, h.totalLen)
    ensures Sectioned(h)
  {
    var n, m := |info.inputs|, |info.outputs|;
    assert p.places[0..n] == p.places[..n] && p.places[n..n + m] == p.places[n..];
    assert lens[0..n] == Lengths(info.inputs) && lens[n..n + m] == Lengths(info.outputs);
    SideApart(h, p, info, lens, h.inputs, info.inputs, 0);
    SideApart(h, p, info, lens, h.outputs, info.outputs, n);
  }

  /** The header of a packed blob is laid out in sections, so it can be placed whenever there is room for it. */
  lemma PackedIsSectioned(info: Info, ifms: seq<seq<byte>>, golds: seq<seq<byte>>, given: seq<int>, blob: seq<byte>)
    requires Packs(info, ifms, golds, given, blob)
    ensures ParseHeader(blob).Ok? && Sectioned(ParseHeader(blob).value)
  {
    PackThenParse(info, ifms, golds, given, blob);
    ParsedInBounds(blob);
    var p, lens := PackedLaidOut(info, ifms, golds, given, blob);
    RecoveredSections(ParseHeader(blob).value, info, ifms, golds, given, p, lens);
  }

  /** A tensor's data in staging shares no byte with the code, wherever its ports have put that. */
  predicate DataApart(h: Header, t: Tensor)
    requires |h.knobs| == KNOB_WORDS
  {
    && Apart(Placed(h).cmd, h.cmsLen, STAGING_BASE + t.dataOff, t.len)
    && Apart(Placed(h).cst, h.constLen, STAGING_BASE + t.dataOff, t.len)
  }

  lemma SectionsStayApart(h: Header, t: Tensor)
    requires Placeable(h) && ApartFromCode(h, t) && t.dataOff + t.len <= h.totalLen
    ensures DataApart(h, t)
  {
  }

  /**
   Whatever knobs a blob was packed with, if it fits then all its regions are apart: the command stream from the
   constants, both from every IFM's and every reference's data, and all of them from the arena and the fast scratch.
   */
  lemma PackedIsSeparate(info: Info, ifms: seq<seq<byte>>, golds: seq<seq<byte>>, given: seq<int>, blob: seq<byte>,
                         stackTop: word)
    requires Packs(info, ifms, golds, given, blob) && ParseHeader(blob).Ok?
    requires var h := ParseHeader(blob).value;
      |h.knobs| == KNOB_WORDS && Fits(h) && SRAM_BASE <= stackTop && !OnChipRefused(h, stackTop)
    ensures var h := ParseHeader(blob).value;
      && Apart(Placed(h).cmd, h.cmsLen, Placed(h).cst, h.constLen) && CommandSafe(h) && ConstSafe(h)
      && Separate(h, Placed(h))
      && (forall i :: 0 <= i < |h.inputs| ==> DataApart(h, h.inputs[i]))
      && (forall i :: 0 <= i < |h.outputs| ==> DataApart(h, h.outputs[i]))
  {
    var h := ParseHeader(blob).value;
    PackedIsSectioned(info, ifms, golds, given, blob);
    PlacementIsSeparate(h, stackTop);
    forall i | 0 <= i < |h.inputs|
      ensures DataApart(h, h.inputs[i])
    {
      assert InBounds(h.inputs[i], h.arenaSize, h.totalLen);
      SectionsStayApart(h, h.inputs[i]);
    }
    forall i | 0 <= i < |h.outputs|
      ensures DataApart(h, h.outputs[i])
    {
      assert InBounds(h.outputs[i], h.arenaSize, h.totalLen);
      SectionsStayApart(h, h.outputs[i]);
    }
  }
}
