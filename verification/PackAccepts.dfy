/** Which workloads pack takes. */
module PackAccepts {
  import opened Bytes
  import opened Pmwl

  // ---- what a caller can check ----

  /** A tensor as long as its data, inside the arena. */
  predicate Fitting(tensor: (int, int), data: seq<byte>, arena: int) {
    0 <= tensor.0 && tensor.1 == |data| && tensor.0 + tensor.1 <= arena
  }

  predicate AllFitting(tensors: seq<(int, int)>, data: seq<seq<byte>>, arena: int) {
    |tensors| == |data| && forall i :: 0 <= i < |tensors| ==> Fitting(tensors[i], data[i], arena)
  }

  /** One of the knobs from the `lo`-th to before the `hi`-th is given and not OFF. */
  predicate Turned(given: seq<int>, lo: nat, hi: nat) {
    exists i :: lo <= i < hi && i < |given| && given[i] != 0xFFFF_FFFF
  }

  /** The bytes in front of the sections: room for the knobs that are turned, and for a table if it takes one. */
  function FrontSize(tensors: nat, given: seq<int>): nat {
    if tensors > 2 then 256 else if Turned(given, 7, 16) then 128 else if Turned(given, 0, 7) then 96 else 64
  }

  /** Every section rounded up to sixteen bytes. */
  function RoundedSizes(parts: seq<seq<byte>>): nat {
    if parts == [] then 0 else Align(|parts[0]|) + RoundedSizes(parts[1..])
  }

  function BlobSize(info: Info, ifms: seq<seq<byte>>, golds: seq<seq<byte>>, given: seq<int>): nat {
    FrontSize(|info.inputs| + |info.outputs|, given) + Align(|info.cms|) + Align(|info.consts|)
    + RoundedSizes(ifms + golds)
  }

  /** The command stream ends in NPU_OP_STOP with mask 0xFFFF. */
  predicate Stops(cms: seq<byte>) {
    |cms| >= 4 && cms[|cms| - 4..] == [0, 0, 0xFF, 0xFF]
  }

  predicate Packable(info: Info, ifms: seq<seq<byte>>, golds: seq<seq<byte>>, given: seq<int>) {
    && |info.inputs| + |info.outputs| <= 10
    && AllFitting(info.inputs, ifms, info.arenaSize) && AllFitting(info.outputs, golds, info.arenaSize)
    && 0 <= info.arenaSize < U32 && 0 <= info.fastSize < U32
    && (forall i :: 0 <= i < 16 && i < |given| ==> 0 <= given[i] < U32)
    && BlobSize(info, ifms, golds, given) < U32 && Stops(info.cms)
  }

  // ---- knobs ----

  lemma KnobsGiven(given: seq<int>)
    ensures AllWords(KnobWords(given)) <==> forall i :: 0 <= i < 16 && i < |given| ==> 0 <= given[i] < U32
    ensures AllOff(KnobWords(given)[7..]) <==> !Turned(given, 7, 16)
    ensures AllOff(KnobWords(given)[..7]) <==> !Turned(given, 0, 7)
  {
    var k := KnobWords(given);
    assert forall i :: 0 <= i < 16 ==> k[i] == if i < |given| then given[i] else 0xFFFF_FFFF;
    assert forall i :: 0 <= i < 9 ==> k[7..][i] == k[i + 7];
    assert forall i :: 0 <= i < 7 ==> k[..7][i] == k[i];
    if AllWords(k) {
      forall i | 0 <= i < 16 && i < |given| ensures 0 <= given[i] < U32 { assert IsWord(k[i]); }
    }
    if AllOff(k[7..]) {
      forall i | 7 <= i < 16 && i < |given| ensures given[i] == 0xFFFF_FFFF { assert k[7..][i - 7] == OFF; }
    }
  }

  lemma FrontSizeIs(tensors: nat, given: seq<int>)
    ensures FrontSize(tensors, given) == HeaderBytes(PackVersion(tensors, KnobWords(given)))
  {
    KnobsGiven(given);
  }

  /** The knobs a version does not carry are OFF. */
  lemma CarriedKnobs(tensors: nat, k: seq<int>)
    requires |k| == KNOB_WORDS
    ensures var n := KnobsCarried(PackVersion(tensors, k)); n <= KNOB_WORDS && (AllWords(k[..n]) <==> AllWords(k))
  {
    SmallestVersion(tensors, k);
    var n := KnobsCarried(PackVersion(tensors, k));
    assert forall i :: 0 <= i < n ==> k[..n][i] == k[i];
    assert forall i :: n <= i < KNOB_WORDS ==> k[n..][i - n] == k[i];
    if AllWords(k[..n]) {
      forall i | 0 <= i < KNOB_WORDS
        ensures IsWord(k[i])
      {
        if i < n {
          assert IsWord(k[..n][i]);
        } else {
          assert k[n..][i - n] == OFF;
        }
      }
    }
  }

  // ---- sizes ----

  lemma {:induction false} SectionsSize(parts: seq<seq<byte>>)
    ensures |Sections(parts)| == RoundedSizes(parts)
  {
    if parts != [] {
      SectionsSize(parts[1..]);
    }
  }

  lemma TotalIs(info: Info, ifms: seq<seq<byte>>, golds: seq<seq<byte>>, given: seq<int>)
    ensures MakePlan(info, ifms, golds, KnobWords(given)).total == BlobSize(info, ifms, golds, given)
  {
    FrontSizeIs(|info.inputs| + |info.outputs|, given);
    SectionsSize(ifms + golds);
  }

  lemma {:induction false} PlacesBelow(at: nat, parts: seq<seq<byte>>, i: nat)
    requires i < |parts|
    ensures Places(at, parts)[i] + |parts[i]| <= at + |Sections(parts)|
    decreases i
  {
    if i > 0 {
      PlacesBelow(at + Align(|parts[0]|), parts[1..], i - 1);
    }
  }

  /** In a plan whose total is a word, so is every place, and every length. */
  ghost predicate PlanIsWords(p: Plan, info: Info) {
    && IsWord(p.total) && p.cmsOff + |info.cms| <= p.total && p.constOff + |info.consts| <= p.total
    && forall i :: 0 <= i < |p.places| ==> p.places[i] <= p.total
  }

  lemma WordsOfPlan(info: Info, ifms: seq<seq<byte>>, golds: seq<seq<byte>>, k: seq<int>)
    requires |k| == KNOB_WORDS && IsWord(MakePlan(info, ifms, golds, k).total)
    ensures PlanIsWords(MakePlan(info, ifms, golds, k), info)
  {
    var p := MakePlan(info, ifms, golds, k);
    forall i | 0 <= i < |p.places|
      ensures p.places[i] <= p.total
    {
      PlacesBelow(p.constOff + Align(|info.consts|), ifms + golds, i);
    }
  }

  // ---- the front words ----

  predicate TensorWords(tensors: seq<(int, int)>) {
    forall i :: 0 <= i < |tensors| ==> IsWord(tensors[i].0) && IsWord(tensors[i].1)
  }

  lemma {:induction false} TableIsWords(tensors: seq<(int, int)>, places: seq<nat>)
    requires |tensors| == |places| && forall i :: 0 <= i < |places| ==> IsWord(places[i])
    ensures AllWords(TableWords(tensors, places)) <==> TensorWords(tensors)
  {
    if tensors != [] {
      TableIsWords(tensors[1..], places[1..]);
      TensorWordsNext(tensors);
      ThreeMore([tensors[0].0, tensors[0].1, places[0]], TableWords(tensors[1..], places[1..]));
    }
  }

  lemma TensorWordsNext(tensors: seq<(int, int)>)
    requires tensors != []
    ensures TensorWords(tensors) <==>
      IsWord(tensors[0].0) && IsWord(tensors[0].1) && TensorWords(tensors[1..])
  {
    assert forall i :: 0 < i < |tensors| ==> tensors[i] == tensors[1..][i - 1];
  }

  lemma AllWordsOf(a: seq<int>, b: seq<int>)
    ensures AllWords(a + b) <==> AllWords(a) && AllWords(b)
  {
    if AllWords(a + b) {
      forall i | 0 <= i < |a| ensures IsWord(a[i]) { assert IsWord((a + b)[i]); }
      forall i | 0 <= i < |b| ensures IsWord(b[i]) { assert IsWord((a + b)[|a| + i]); }
    }
  }

  lemma ThreeMore(three: seq<int>, rest: seq<int>)
    requires |three| == 3
    ensures AllWords(three + rest) <==> IsWord(three[0]) && IsWord(three[1]) && IsWord(three[2]) && AllWords(rest)
  {
    AllWordsOf(three, rest);
  }

  lemma HeaderIsWords(info: Info, p: Plan)
    requires info.inputs != [] && info.outputs != [] && |p.places| == |info.inputs| + |info.outputs|
    requires PlanIsWords(p, info) && 1 <= p.version <= 4
    ensures AllWords(HeaderPart(info, p))
       <==> IsWord(info.arenaSize) && IsWord(info.fastSize) && IsWord(info.inputs[0].0) && IsWord(info.inputs[0].1)
            && IsWord(info.outputs[0].0) && IsWord(info.outputs[0].1)
  {
    var h := HeaderPart(info, p);
    assert IsWord(p.places[0]) && IsWord(p.places[|info.inputs|]);
    if AllWords(h) {
      assert IsWord(h[6]) && IsWord(h[7]) && IsWord(h[8]) && IsWord(h[9]) && IsWord(h[11]) && IsWord(h[12]);
    }
  }

  lemma TablePartIsWords(info: Info, p: Plan)
    requires |p.places| == |info.inputs| + |info.outputs| <= IO_MAX && PlanIsWords(p, info)
    ensures AllWords(TablePart(info, p)) <==> TensorWords(info.inputs + info.outputs)
  {
    var entries := TableWords(info.inputs + info.outputs, p.places);
    var counts, zeros := [|info.inputs|, |info.outputs|], seq(IO_WORDS - 2 - |entries|, _ => 0);
    TableIsWords(info.inputs + info.outputs, p.places);
    AllWordsOf(counts + entries, zeros);
    AllWordsOf(counts, entries);
  }

  lemma FrontIsWords(info: Info, k: seq<int>, p: Plan)
    requires |k| == KNOB_WORDS && info.inputs != [] && info.outputs != []
    requires |p.places| == |info.inputs| + |info.outputs| <= IO_MAX && PlanIsWords(p, info)
    requires p.version == PackVersion(|info.inputs| + |info.outputs|, k)
    ensures 1 <= p.version <= 4
    ensures AllWords(FrontWords(info, k, p))
       <==> IsWord(info.arenaSize) && IsWord(info.fastSize) && TensorWords(info.inputs + info.outputs) && AllWords(k)
  {
    var header, knobs := HeaderPart(info, p), k[..KnobsCarried(p.version)];
    var table := if p.version == 4 then TablePart(info, p) else [];
    CarriedKnobs(|info.inputs| + |info.outputs|, k);
    AllWordsOf(header + knobs, table);
    AllWordsOf(header, knobs);
    HeaderIsWords(info, p);
    FirstTensors(info);
    if p.version == 4 {
      TablePartIsWords(info, p);
    }
  }

  /** The header names the first tensors; where there are no others, it names them all. */
  lemma FirstTensors(info: Info)
    requires info.inputs != [] && info.outputs != []
    ensures var all := info.inputs + info.outputs;
      var first := IsWord(info.inputs[0].0) && IsWord(info.inputs[0].1) && IsWord(info.outputs[0].0)
                   && IsWord(info.outputs[0].1);
      (TensorWords(all) ==> first) && (|all| == 2 ==> (first <==> TensorWords(all)))
  {
    var all := info.inputs + info.outputs;
    assert all[0] == info.inputs[0] && all[|info.inputs|] == info.outputs[0];
  }

  // ---- the tensors ----

  predicate Checked(tensors: seq<(int, int)>, data: seq<seq<byte>>, arena: int) {
    |tensors| == |data|
    && forall i :: 0 <= i < |tensors| ==> tensors[i].1 == |data[i]| && tensors[i].0 + tensors[i].1 <= arena
  }

  lemma FittingIs(tensors: seq<(int, int)>, data: seq<seq<byte>>, arena: int)
    requires 0 <= arena < U32
    ensures AllFitting(tensors, data, arena) <==> Checked(tensors, data, arena) && TensorWords(tensors)
  {
  }

  lemma FittingBoth(a: seq<(int, int)>, x: seq<seq<byte>>, b: seq<(int, int)>, y: seq<seq<byte>>, arena: int)
    requires |a| == |x| && |b| == |y|
    ensures AllFitting(a + b, x + y, arena) <==> AllFitting(a, x, arena) && AllFitting(b, y, arena)
  {
    if AllFitting(a + b, x + y, arena) {
      forall i | 0 <= i < |a| ensures Fitting(a[i], x[i], arena) { assert Fitting((a + b)[i], (x + y)[i], arena); }
      forall i | 0 <= i < |b| ensures Fitting(b[i], y[i], arena) {
        assert Fitting((a + b)[|a| + i], (x + y)[|a| + i], arena);
      }
    }
  }

  lemma StopIs(cms: seq<byte>)
    ensures Stops(cms) <==> |cms| >= 4 && Rd32(cms, |cms| - 4) == 0xFFFF_0000
  {
    if |cms| >= 4 {
      var at := |cms| - 4;
      if Rd32(cms, at) == 0xFFFF_0000 {
        EncodeRead(cms, at);
        assert cms[at..at + 4] == cms[at..];
      }
    }
  }

  // ---- the theorem ----

  lemma PackOfSound(info: Info, ifms: seq<seq<byte>>, golds: seq<seq<byte>>, given: seq<int>)
    requires info.inputs != [] && info.outputs != [] && |ifms| == |info.inputs| && |golds| == |info.outputs|
    requires |info.inputs| + |info.outputs| <= IO_MAX && IsWord(BlobSize(info, ifms, golds, given))
    ensures var all := info.inputs + info.outputs;
      Pack(info, ifms, golds, given).Ok?
      <==> Checked(all, ifms + golds, info.arenaSize) && IsWord(info.arenaSize) && IsWord(info.fastSize)
           && TensorWords(all) && AllWords(KnobWords(given)) && Stops(info.cms)
  {
    var k := KnobWords(given);
    TotalIs(info, ifms, golds, given);
    WordsOfPlan(info, ifms, golds, k);
    FrontIsWords(info, k, MakePlan(info, ifms, golds, k));
    StopIs(info.cms);
  }

  /** A blob too long for its own length word is refused. */
  lemma PackOfLong(info: Info, ifms: seq<seq<byte>>, golds: seq<seq<byte>>, given: seq<int>)
    requires info.inputs != [] && info.outputs != [] && !IsWord(BlobSize(info, ifms, golds, given))
    ensures Pack(info, ifms, golds, given).Err?
  {
    TotalIs(info, ifms, golds, given);
    if |ifms| == |info.inputs| && |golds| == |info.outputs| && |info.inputs| + |info.outputs| <= IO_MAX {
      var k := KnobWords(given);
      var p := MakePlan(info, ifms, golds, k);
      var ws := FrontWords(info, k, p);
      assert ws[..HEADER_WORDS][15] == p.total == ws[15];
      assert !AllWords(ws) by {
        assert !IsWord(ws[15]);
      }
    }
  }

  /**
   pack takes a workload exactly when its counts match and come to at most ten tensors, every tensor is as long as its
   data and inside the arena, every size, offset and given knob is a 32-bit word, the blob's own length too, and the
   command stream ends in a stop.
   */
  lemma PackAcceptsExactly(info: Info, ifms: seq<seq<byte>>, golds: seq<seq<byte>>, given: seq<int>)
    requires info.inputs != [] && info.outputs != []
    ensures Pack(info, ifms, golds, given).Ok? <==> Packable(info, ifms, golds, given)
  {
    if |ifms| == |info.inputs| && |golds| == |info.outputs| && |info.inputs| + |info.outputs| <= 10 {
      if BlobSize(info, ifms, golds, given) < U32 {
        PackOfSound(info, ifms, golds, given);
        KnobsGiven(given);
        if 0 <= info.arenaSize < U32 {
          FittingIs(info.inputs + info.outputs, ifms + golds, info.arenaSize);
          FittingBoth(info.inputs, ifms, info.outputs, golds, info.arenaSize);
        }
      } else {
        PackOfLong(info, ifms, golds, given);
      }
    }
  }
}
