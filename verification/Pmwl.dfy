/** The PMWL workload blob as the host packs and parses it. */
module Pmwl {
  import opened Bytes

  const PMWL_MAGIC: word := 0x4C574D50
  const OFF: word := 0xFFFFFFFF
  const HEADER_WORDS: nat := 16
  const KNOB_WORDS: nat := 16
  const V2_KNOBS: nat := 7
  const IO_WORD: nat := 32
  const IO_MAX: nat := 10
  const IO_WORDS: nat := 32

  /** A tensor: where it lies in the arena, its length, and where its data lies in the blob. */
  datatype Tensor = Tensor(arenaOff: word, len: word, dataOff: word)

  datatype Header = Header(
    version: word, cmsOff: word, cmsLen: word, constOff: word, constLen: word, arenaSize: word, fastSize: word,
    irqMask: word, totalLen: word, knobs: seq<word>, inputs: seq<Tensor>, outputs: seq<Tensor>)

  datatype HeaderError =
    ShortBlob | NotPmwl | UnknownVersion | StructError | BadCounts | FirstEntryDiffers | OutsideBounds

  // ---- parse_header ----

  function KnobsCarried(version: word): nat {
    if version == 2 then 8 else if version == 3 || version == 4 then KNOB_WORDS else 0
  }

  /** The bytes of header a version carries. */
  function HeaderBytes(version: word): nat {
    if version == 4 then 4 * (IO_WORD + IO_WORDS) else 4 * (HEADER_WORDS + KnobsCarried(version))
  }

  function Offs(n: nat): (k: seq<word>)
    ensures |k| == n
  {
    seq(n, _ => OFF)
  }

  function ReadKnobs(blob: seq<byte>, version: word): (k: seq<word>)
    requires |blob| >= HeaderBytes(version)
    ensures |k| == KNOB_WORDS
  {
    var n := KnobsCarried(version);
    var k := ReadWords(blob, 4 * HEADER_WORDS, n) + Offs(KNOB_WORDS - n);
    if version == 2 then k[V2_KNOBS := OFF] else k
  }

  /** Which knobs a version carries: none, the first seven, or all sixteen; the others are OFF. */
  lemma KnobsByVersion(blob: seq<byte>, version: word, i: nat)
    requires 1 <= version <= 4 && |blob| >= HeaderBytes(version) && i < 16
    ensures ReadKnobs(blob, version)[i]
         == if version >= 3 || (version == 2 && i < 7) then Rd32(blob, 64 + 4 * i) else 0xFFFF_FFFF
  {
  }

  function Entry(t: seq<word>, i: nat): Tensor
    requires 3 * i + 5 <= |t|
  {
    Tensor(t[2 + 3 * i], t[3 + 3 * i], t[4 + 3 * i])
  }

  function Entries(t: seq<word>, from: nat, n: nat): (es: seq<Tensor>)
    requires 3 * (from + n) + 2 <= |t|
    ensures |es| == n
    ensures forall i :: 0 <= i < n ==> es[i] == Entry(t, from + i)
  {
    seq(n, i requires 0 <= i < n => Entry(t, from + i))
  }

  predicate InBounds(t: Tensor, arena: word, total: word) {
    t.arenaOff + t.len <= arena && t.dataOff + t.len <= total
  }

  predicate AllInBounds(ts: seq<Tensor>, arena: word, total: word) {
    forall i :: 0 <= i < |ts| ==> InBounds(ts[i], arena, total)
  }

  /** The IO table of a version-4 blob, or the one IFM and one OFM of the header before that. */
  function ReadTable(blob: seq<byte>, h: seq<word>): Result<(seq<Tensor>, seq<Tensor>), HeaderError>
    requires |h| == HEADER_WORDS
  {
    var firstIn, firstOut := Tensor(h[8], h[9], h[10]), Tensor(h[11], h[12], h[13]);
    if h[1] != 4 then Ok(([firstIn], [firstOut]))
    else if |blob| < HeaderBytes(4) then Err(StructError)
    else
      var t := ReadWords(blob, 4 * IO_WORD, IO_WORDS);
      if t[0] < 1 || t[1] < 1 || t[0] + t[1] > IO_MAX then Err(BadCounts)
      else
        var ins, outs := Entries(t, 0, t[0]), Entries(t, t[0], t[1]);
        if ins[0] != firstIn || outs[0] != firstOut then Err(FirstEntryDiffers) else Ok((ins, outs))
  }

  function ParseHeader(blob: seq<byte>): Result<Header, HeaderError> {
    if |blob| < 4 * HEADER_WORDS then Err(ShortBlob)
    else
      var h := ReadWords(blob, 0, HEADER_WORDS);
      if h[0] != PMWL_MAGIC then Err(NotPmwl)
      else if !(1 <= h[1] <= 4) then Err(UnknownVersion)
      else if |blob| < 4 * (HEADER_WORDS + KnobsCarried(h[1])) then Err(StructError)
      else
        var table := ReadTable(blob, h);
        if table.Err? then Err(table.error)
        else if |blob| < HeaderBytes(h[1]) then Err(StructError)
        else
          var (ins, outs) := table.value;
          if !AllInBounds(ins, h[6], h[15]) || !AllInBounds(outs, h[6], h[15]) then Err(OutsideBounds)
          else Ok(Header(h[1], h[2], h[3], h[4], h[5], h[6], h[7], h[14], h[15], ReadKnobs(blob, h[1]), ins, outs))
  }

  // ---- pack ----

  datatype Info = Info(cms: seq<byte>, consts: seq<byte>, arenaSize: int, fastSize: int,
                       inputs: seq<(int, int)>, outputs: seq<(int, int)>)

  datatype PackError = CountMismatch | TooManyTensors | SizeMismatch | OutsideArena | WordOutOfRange | NoStop

  function Align(n: nat): (r: nat)
    ensures n <= r < n + 16 && r % 16 == 0
  {
    (n + 15) / 16 * 16
  }

  /** A section with the zero bytes that follow it up to the next multiple of 16. */
  function Padded(b: seq<byte>): (r: seq<byte>)
    ensures |r| == Align(|b|) && r[..|b|] == b
  {
    b + seq(Align(|b|) - |b|, _ => 0)
  }

  function Sections(parts: seq<seq<byte>>): (s: seq<byte>)
    ensures |s| % 16 == 0
  {
    if parts == [] then [] else Padded(parts[0]) + Sections(parts[1..])
  }

  /** Where each section starts, the first one at `at`. */
  function Places(at: nat, parts: seq<seq<byte>>): (r: seq<nat>)
    ensures |r| == |parts|
    decreases |parts|
  {
    if parts == [] then [] else [at] + Places(at + Align(|parts[0]|), parts[1..])
  }

  /** The knob words a list stands for: missing ones are OFF, and only sixteen are ever looked at. */
  function KnobWords(given: seq<int>): (k: seq<int>)
    ensures |k| == KNOB_WORDS
  {
    (given + Offs(KNOB_WORDS))[..KNOB_WORDS]
  }

  predicate AllOff(k: seq<int>) {
    forall i :: 0 <= i < |k| ==> k[i] == OFF
  }

  /** The version pack writes. */
  function PackVersion(tensors: nat, k: seq<int>): word
    requires |k| == KNOB_WORDS
  {
    if tensors > 2 then 4
    else if !AllOff(k[V2_KNOBS..]) then 3
    else if !AllOff(k[..V2_KNOBS]) then 2
    else 1
  }

  predicate IsWord(n: int) { 0 <= n < U32 }

  predicate AllWords(ns: seq<int>) {
    forall i :: 0 <= i < |ns| ==> IsWord(ns[i])
  }

  function AsWords(ns: seq<int>): (ws: seq<word>)
    requires AllWords(ns)
    ensures |ws| == |ns| && forall i :: 0 <= i < |ns| ==> ws[i] == ns[i]
  {
    seq(|ns|, i requires 0 <= i < |ns| => ns[i])
  }

  /** The entries of the IO table, three words each. */
  function TableWords(tensors: seq<(int, int)>, places: seq<nat>): (ws: seq<int>)
    requires |tensors| == |places|
    ensures |ws| == 3 * |tensors|
    ensures forall i :: 0 <= i < |tensors| ==>
      ws[3 * i] == tensors[i].0 && ws[3 * i + 1] == tensors[i].1 && ws[3 * i + 2] == places[i]
  {
    if tensors == [] then []
    else [tensors[0].0, tensors[0].1, places[0]] + TableWords(tensors[1..], places[1..])
  }

  /** Everything pack decides before it writes a byte. */
  datatype Plan = Plan(version: word, cmsOff: nat, constOff: nat, places: seq<nat>, total: nat)

  function Data(info: Info, ifms: seq<seq<byte>>, golds: seq<seq<byte>>): seq<seq<byte>> {
    [info.cms] + ([info.consts] + (ifms + golds))
  }

  function MakePlan(info: Info, ifms: seq<seq<byte>>, golds: seq<seq<byte>>, k: seq<int>): (p: Plan)
    requires |k| == KNOB_WORDS
    ensures |p.places| == |ifms| + |golds|
  {
    var version := PackVersion(|info.inputs| + |info.outputs|, k);
    var cmsOff := HeaderBytes(version);
    var constOff := cmsOff + Align(|info.cms|);
    var dataOff := constOff + Align(|info.consts|);
    Plan(version, cmsOff, constOff, Places(dataOff, ifms + golds), dataOff + |Sections(ifms + golds)|)
  }

  function HeaderPart(info: Info, p: Plan): (h: seq<int>)
    requires info.inputs != [] && info.outputs != [] && |p.places| == |info.inputs| + |info.outputs|
    ensures |h| == HEADER_WORDS
  {
    var fi, fo := info.inputs[0], info.outputs[0];
    [PMWL_MAGIC, p.version, p.cmsOff, |info.cms|, p.constOff, |info.consts|, info.arenaSize, info.fastSize,
     fi.0, fi.1, p.places[0], fo.0, fo.1, p.places[|info.inputs|], 0xFFFF, p.total]
  }

  function TablePart(info: Info, p: Plan): (t: seq<int>)
    requires |p.places| == |info.inputs| + |info.outputs| <= IO_MAX
    ensures |t| == IO_WORDS && t[0] == |info.inputs| && t[1] == |info.outputs|
    ensures t[2..2 + 3 * |p.places|] == TableWords(info.inputs + info.outputs, p.places)
  {
    var entries := TableWords(info.inputs + info.outputs, p.places);
    [|info.inputs|, |info.outputs|] + entries + seq(IO_WORDS - 2 - |entries|, _ => 0)
  }

  /** The words in front of the sections. */
  function FrontWords(info: Info, k: seq<int>, p: Plan): (ws: seq<int>)
    requires |k| == KNOB_WORDS && info.inputs != [] && info.outputs != []
    requires |p.places| == |info.inputs| + |info.outputs| <= IO_MAX && 1 <= p.version <= 4
    ensures 4 * |ws| == HeaderBytes(p.version)
    ensures ws[..HEADER_WORDS] == HeaderPart(info, p)
    ensures ws[HEADER_WORDS..HEADER_WORDS + KnobsCarried(p.version)] == k[..KnobsCarried(p.version)]
    ensures p.version == 4 ==> ws[IO_WORD..] == TablePart(info, p)
  {
    HeaderPart(info, p) + k[..KnobsCarried(p.version)] + (if p.version == 4 then TablePart(info, p) else [])
  }

  /** The checks on each tensor in turn. */
  function CheckTensors(tensors: seq<(int, int)>, data: seq<seq<byte>>, arena: int): (e: Option<PackError>)
    requires |tensors| == |data|
    ensures e.None?
       <==> forall i :: 0 <= i < |tensors| ==> tensors[i].1 == |data[i]| && tensors[i].0 + tensors[i].1 <= arena
  {
    if tensors == [] then None
    else if |data[0]| != tensors[0].1 then Some(SizeMismatch)
    else if tensors[0].0 + tensors[0].1 > arena then Some(OutsideArena)
    else
      assert forall i :: 0 < i < |tensors| ==> tensors[i] == tensors[1..][i - 1] && data[i] == data[1..][i - 1];
      CheckTensors(tensors[1..], data[1..], arena)
  }

  /** The blob pack makes, or why it refuses. */
  function Pack(info: Info, ifms: seq<seq<byte>>, golds: seq<seq<byte>>, given: seq<int>): Result<seq<byte>, PackError>
    requires info.inputs != [] && info.outputs != []
  {
    var tensors, k := info.inputs + info.outputs, KnobWords(given);
    if |ifms| != |info.inputs| || |golds| != |info.outputs| then Err(CountMismatch)
    else if |tensors| > IO_MAX then Err(TooManyTensors)
    else if CheckTensors(tensors, ifms + golds, info.arenaSize).Some? then
      Err(CheckTensors(tensors, ifms + golds, info.arenaSize).value)
    else Assembled(info, FrontWords(info, k, MakePlan(info, ifms, golds, k)), Data(info, ifms, golds))
  }

  /** The front words and the sections behind them, once every tensor has been checked. */
  function Assembled(info: Info, front: seq<int>, data: seq<seq<byte>>): Result<seq<byte>, PackError> {
    if !AllWords(front) then Err(WordOutOfRange)
    else if |info.cms| < 4 then Err(WordOutOfRange)
    else if Rd32(info.cms, |info.cms| - 4) != 0xFFFF0000 then Err(NoStop)
    else Ok(Words(AsWords(front)) + Sections(data))
  }

  // ---- what pack writes, parse_header reads ----

  lemma {:induction false} SectionsSplit(parts: seq<seq<byte>>, i: nat)
    requires i <= |parts|
    ensures Sections(parts) == Sections(parts[..i]) + Sections(parts[i..])
  {
    if i == 0 {
      assert parts[0..] == parts && parts[..0] == [];
    } else {
      var rest := parts[1..];
      SectionsSplit(rest, i - 1);
      assert rest[i - 1..] == parts[i..] && parts[..i][1..] == rest[..i - 1];
      assert Padded(parts[0]) + (Sections(rest[..i - 1]) + Sections(parts[i..]))
          == (Padded(parts[0]) + Sections(rest[..i - 1])) + Sections(parts[i..]);
    }
  }

  lemma {:induction false} PlaceOf(at: nat, parts: seq<seq<byte>>, i: nat)
    requires i < |parts|
    ensures Places(at, parts)[i] == at + |Sections(parts[..i])|
    decreases i
  {
    if i > 0 {
      PlaceOf(at + Align(|parts[0]|), parts[1..], i - 1);
      assert parts[..i][1..] == parts[1..][..i - 1];
    }
  }

  /** `part` lies 16-aligned in the blob, behind its first `front` bytes. */
  ghost predicate IsSection(blob: seq<byte>, front: nat, at: nat, part: seq<byte>) {
    front <= at && at % 16 == 0 && at + |part| <= |blob| && blob[at..at + |part|] == part
  }

  /** Each section lies 16-aligned where Places says, inside the blob, and holds its data. */
  lemma SectionPlaces(at: nat, parts: seq<seq<byte>>, i: nat) returns (p: nat)
    requires at % 16 == 0 && i < |parts|
    ensures Places(at, parts)[i] == at + p && IsSection(Sections(parts), 0, p, parts[i])
  {
    PlaceOf(at, parts, i);
    SectionsSplit(parts, i);
    var before, behind := Sections(parts[..i]), Sections(parts[i..]);
    assert parts[i..][0] == parts[i];
    assert behind[0..|parts[i]|] == parts[i];
    p := |before|;
    Behind(before, behind, 0, parts[i]);
  }

  /** Sections do not overlap. */
  lemma {:induction false} PlacesAscend(at: nat, parts: seq<seq<byte>>, i: nat, j: nat)
    requires i < j < |parts|
    ensures Places(at, parts)[i] + |parts[i]| <= Places(at, parts)[j]
  {
    PlaceOf(at, parts, i);
    PlaceOf(at, parts, j);
    SectionsSplit(parts[..j], i);
    assert parts[..j][..i] == parts[..i] && parts[..j][i..][0] == parts[i];
  }

  /** Words in front of a blob read back from it. */
  lemma FrontReads(blob: seq<byte>, ws: seq<word>, from: nat, n: nat)
    requires |blob| >= 4 * |ws| && blob[..4 * |ws|] == Words(ws) && from + n <= |ws|
    ensures ReadWords(blob, 4 * from, n) == ws[from..from + n]
  {
    PrefixWords(blob, Words(ws), 4 * from, n);
    WordsFrom(ws, from, n);
  }

  ghost function PlanOf(info: Info, ifms: seq<seq<byte>>, golds: seq<seq<byte>>, given: seq<int>): (p: Plan)
    ensures |p.places| == |ifms| + |golds|
  {
    MakePlan(info, ifms, golds, KnobWords(given))
  }

  lemma DataSections(info: Info, ifms: seq<seq<byte>>, golds: seq<seq<byte>>, at: nat)
    ensures var data := ifms + golds;
      && Sections(Data(info, ifms, golds)) == Padded(info.cms) + (Padded(info.consts) + Sections(data))
      && Places(at, Data(info, ifms, golds))
         == [at, at + Align(|info.cms|)] + Places(at + Align(|info.cms|) + Align(|info.consts|), data)
  {
  }

  ghost function FrontOf(info: Info, ifms: seq<seq<byte>>, golds: seq<seq<byte>>, given: seq<int>): (ws: seq<int>)
    requires info.inputs != [] && info.outputs != []
    requires |ifms| == |info.inputs| && |golds| == |info.outputs| && |info.inputs| + |info.outputs| <= IO_MAX
  {
    FrontWords(info, KnobWords(given), PlanOf(info, ifms, golds, given))
  }

  ghost predicate Packs(info: Info, ifms: seq<seq<byte>>, golds: seq<seq<byte>>, given: seq<int>, blob: seq<byte>) {
    info.inputs != [] && info.outputs != [] && Pack(info, ifms, golds, given) == Ok(blob)
  }

  lemma PackedCounts(info: Info, ifms: seq<seq<byte>>, golds: seq<seq<byte>>, given: seq<int>, blob: seq<byte>)
    requires Packs(info, ifms, golds, given, blob)
    ensures |ifms| == |info.inputs| && |golds| == |info.outputs| && |info.inputs| + |info.outputs| <= IO_MAX
    ensures AllWords(FrontOf(info, ifms, golds, given))
    ensures blob == Words(AsWords(FrontOf(info, ifms, golds, given))) + Sections(Data(info, ifms, golds))
  {
    PackAssembles(info, ifms, golds, given, blob);
    AssembledIs(info, FrontOf(info, ifms, golds, given), Data(info, ifms, golds), blob);
  }

  lemma PackAssembles(info: Info, ifms: seq<seq<byte>>, golds: seq<seq<byte>>, given: seq<int>, blob: seq<byte>)
    requires Packs(info, ifms, golds, given, blob)
    ensures |ifms| == |info.inputs| && |golds| == |info.outputs| && |info.inputs| + |info.outputs| <= IO_MAX
    ensures Assembled(info, FrontOf(info, ifms, golds, given), Data(info, ifms, golds)) == Ok(blob)
  {
  }

  lemma AssembledIs(info: Info, front: seq<int>, data: seq<seq<byte>>, blob: seq<byte>)
    requires Assembled(info, front, data) == Ok(blob)
    ensures AllWords(front) && blob == Words(AsWords(front)) + Sections(data)
  {
  }

  /** A packed blob is its front words and its sections, and the plan knows where each section lies. */
  lemma PackedShape(info: Info, ifms: seq<seq<byte>>, golds: seq<seq<byte>>, given: seq<int>, blob: seq<byte>)
    returns (front: seq<byte>)
    requires Packs(info, ifms, golds, given, blob)
    ensures var p := PlanOf(info, ifms, golds, given);
      && |ifms| == |info.inputs| && |golds| == |info.outputs|
      && |front| == p.cmsOff && p.cmsOff % 16 == 0 && blob == front + Sections(Data(info, ifms, golds))
      && p.total == |blob|
      && [p.cmsOff, p.constOff] + p.places == Places(p.cmsOff, Data(info, ifms, golds))
  {
    PackedCounts(info, ifms, golds, given, blob);
    PlanPlaces(info, ifms, golds, KnobWords(given));
    front := Words(AsWords(FrontOf(info, ifms, golds, given)));
    assert |blob| == |front| + |Sections(Data(info, ifms, golds))|;
  }

  lemma PlanPlaces(info: Info, ifms: seq<seq<byte>>, golds: seq<seq<byte>>, k: seq<int>)
    requires |k| == KNOB_WORDS
    ensures var p := MakePlan(info, ifms, golds, k);
      && p.cmsOff % 16 == 0 && p.total == p.cmsOff + |Sections(Data(info, ifms, golds))|
      && [p.cmsOff, p.constOff] + p.places == Places(p.cmsOff, Data(info, ifms, golds))
  {
    DataSections(info, ifms, golds, MakePlan(info, ifms, golds, k).cmsOff);
  }

  lemma SectionIn(front: seq<byte>, parts: seq<seq<byte>>, i: nat, blob: seq<byte>) returns (at: nat, part: seq<byte>)
    requires |front| % 16 == 0 && i < |parts| && blob == front + Sections(parts)
    ensures at == Places(|front|, parts)[i] && part == parts[i] && IsSection(blob, |front|, at, part)
  {
    var p := SectionPlaces(|front|, parts, i);
    at, part := |front| + p, parts[i];
    Behind(front, Sections(parts), p, part);
  }

  lemma Behind(front: seq<byte>, body: seq<byte>, p: nat, part: seq<byte>)
    requires |front| % 16 == 0 && IsSection(body, 0, p, part)
    ensures IsSection(front + body, |front|, |front| + p, part)
  {
    SumSlice(front, body, p, p + |part|);
  }

  /** Every section of a packed blob is 16-aligned, in bounds, and holds the bytes that were packed. */
  lemma SectionsHoldData(info: Info, ifms: seq<seq<byte>>, golds: seq<seq<byte>>, given: seq<int>, blob: seq<byte>,
                         i: nat)
    requires Packs(info, ifms, golds, given, blob) && i < |Data(info, ifms, golds)|
    ensures |ifms| == |info.inputs| && |golds| == |info.outputs|
    ensures var p := PlanOf(info, ifms, golds, given);
      IsSection(blob, p.cmsOff, ([p.cmsOff, p.constOff] + p.places)[i], Data(info, ifms, golds)[i])
  {
    var front := PackedShape(info, ifms, golds, given, blob);
    var at, part := SectionIn(front, Data(info, ifms, golds), i, blob);
  }

  /** No two sections overlap. */
  lemma SectionsDisjoint(info: Info, ifms: seq<seq<byte>>, golds: seq<seq<byte>>, given: seq<int>, blob: seq<byte>,
                         i: nat, j: nat)
    requires Packs(info, ifms, golds, given, blob) && i < j < |Data(info, ifms, golds)|
    ensures |ifms| == |info.inputs| && |golds| == |info.outputs|
    ensures var p := PlanOf(info, ifms, golds, given);
      var places := [p.cmsOff, p.constOff] + p.places;
      places[i] + |Data(info, ifms, golds)[i]| <= places[j]
  {
    var front := PackedShape(info, ifms, golds, given, blob);
    PlacesAscend(|front|, Data(info, ifms, golds), i, j);
  }

  /** The entry of the header describes the tensor that was asked for, at the place its data was put. */
  ghost predicate Describes(t: Tensor, wanted: (int, int), place: nat) {
    t.arenaOff == wanted.0 && t.len == wanted.1 && t.dataOff == place
  }

  ghost predicate AllDescribe(ts: seq<Tensor>, wanted: seq<(int, int)>, places: seq<nat>)
    requires |wanted| <= |places|
  {
    |ts| == |wanted| && forall i :: 0 <= i < |ts| ==> Describes(ts[i], wanted[i], places[i])
  }

  /** A version can carry a workload: enough table for its tensors, and every knob it drops is OFF anyway. */
  ghost predicate Carries(version: word, tensors: nat, k: seq<int>)
    requires |k| == KNOB_WORDS
  {
    && 1 <= version <= 4
    && (tensors > 2 ==> version == 4)
    && AllOff(k[KnobsCarried(version)..])
    && (version == 2 ==> k[V2_KNOBS] == OFF)
  }

  /** pack writes the smallest version that carries the workload. */
  lemma SmallestVersion(tensors: nat, k: seq<int>)
    requires |k| == KNOB_WORDS
    ensures Carries(PackVersion(tensors, k), tensors, k)
    ensures forall v :: Carries(v, tensors, k) ==> PackVersion(tensors, k) <= v
  {
  }

  lemma PackedWords(info: Info, ifms: seq<seq<byte>>, golds: seq<seq<byte>>, given: seq<int>, blob: seq<byte>,
                    from: nat, n: nat)
    requires Packs(info, ifms, golds, given, blob)
    ensures |ifms| == |info.inputs| && |golds| == |info.outputs| && |info.inputs| + |info.outputs| <= IO_MAX
    ensures var ws := FrontOf(info, ifms, golds, given);
      && 4 * |ws| == HeaderBytes(PlanOf(info, ifms, golds, given).version) <= |blob|
      && (from + n <= |ws| ==> ReadWords(blob, 4 * from, n) == ws[from..from + n])
  {
    PackedCounts(info, ifms, golds, given, blob);
    var ws := AsWords(FrontOf(info, ifms, golds, given));
    if from + n <= |ws| {
      FrontReads(blob, ws, from, n);
      assert ws[from..from + n] == FrontOf(info, ifms, golds, given)[from..from + n];
    }
  }

  /** The knob words come back, the dropped ones as OFF. */
  lemma PackedKnobs(info: Info, ifms: seq<seq<byte>>, golds: seq<seq<byte>>, given: seq<int>, blob: seq<byte>)
    requires Packs(info, ifms, golds, given, blob)
    ensures |ifms| == |info.inputs| && |golds| == |info.outputs|
    ensures HeaderBytes(PlanOf(info, ifms, golds, given).version) <= |blob|
    ensures ReadKnobs(blob, PlanOf(info, ifms, golds, given).version) == KnobWords(given)
  {
    var v, k := PlanOf(info, ifms, golds, given).version, KnobWords(given);
    var n := KnobsCarried(v);
    PackedWords(info, ifms, golds, given, blob, HEADER_WORDS, n);
    SmallestVersion(|info.inputs| + |info.outputs|, k);
    var ws := FrontOf(info, ifms, golds, given);
    assert ws[HEADER_WORDS..HEADER_WORDS + n] == k[..n];
    assert k == k[..n] + k[n..];
    assert k[n..] == Offs(KNOB_WORDS - n);
  }

  /** `tw` lists the tensors, three words each. */
  ghost predicate Lists(tw: seq<int>, tensors: seq<(int, int)>, places: seq<nat>)
    requires |tensors| == |places|
  {
    && |tw| == 3 * |tensors|
    && forall i :: 0 <= i < |tensors| ==>
         tw[3 * i] == tensors[i].0 && tw[3 * i + 1] == tensors[i].1 && tw[3 * i + 2] == places[i]
  }

  /** The sixteen header words come back. */
  lemma PackedHeader(info: Info, ifms: seq<seq<byte>>, golds: seq<seq<byte>>, given: seq<int>, blob: seq<byte>)
    requires Packs(info, ifms, golds, given, blob)
    ensures |ifms| == |info.inputs| && |golds| == |info.outputs| && |blob| >= 4 * HEADER_WORDS
    ensures ReadWords(blob, 0, HEADER_WORDS) == HeaderPart(info, PlanOf(info, ifms, golds, given))
  {
    PackedWords(info, ifms, golds, given, blob, 0, HEADER_WORDS);
    var ws := FrontOf(info, ifms, golds, given);
    assert ws[0..HEADER_WORDS] == ws[..HEADER_WORDS];
  }

  lemma PackedTableWords(info: Info, ifms: seq<seq<byte>>, golds: seq<seq<byte>>, given: seq<int>, blob: seq<byte>)
    requires Packs(info, ifms, golds, given, blob) && PlanOf(info, ifms, golds, given).version == 4
    ensures |ifms| == |info.inputs| && |golds| == |info.outputs| && |info.inputs| + |info.outputs| <= IO_MAX
    ensures |blob| >= HeaderBytes(4)
    ensures ReadWords(blob, 4 * IO_WORD, IO_WORDS) == TablePart(info, PlanOf(info, ifms, golds, given))
  {
    PackedWords(info, ifms, golds, given, blob, IO_WORD, IO_WORDS);
    var ws := FrontOf(info, ifms, golds, given);
    assert ws[IO_WORD..IO_WORD + IO_WORDS] == ws[IO_WORD..];
  }

  /** A table that lists the tensors reads back as their descriptions. */
  lemma TableReads(t: seq<word>, tw: seq<int>, ins: seq<(int, int)>, outs: seq<(int, int)>, places: seq<nat>)
    requires |places| == |ins| + |outs| && Lists(tw, ins + outs, places) && 2 + |tw| <= |t| && t[2..2 + |tw|] == tw
    ensures 3 * |places| + 2 <= |t|
    ensures AllDescribe(Entries(t, 0, |ins|), ins, places[..|ins|])
    ensures AllDescribe(Entries(t, |ins|, |outs|), outs, places[|ins|..])
  {
  }

  /** The header words that repeat the first tensors. */
  lemma HeaderNames(info: Info, p: Plan, h: seq<word>)
    requires info.inputs != [] && info.outputs != [] && |p.places| == |info.inputs| + |info.outputs|
    requires h == HeaderPart(info, p)
    ensures h[1] == p.version
    ensures Describes(Tensor(h[8], h[9], h[10]), info.inputs[0], p.places[0])
    ensures Describes(Tensor(h[11], h[12], h[13]), info.outputs[0], p.places[|info.inputs|])
  {
  }

  lemma PackedFirst(info: Info, ifms: seq<seq<byte>>, golds: seq<seq<byte>>, given: seq<int>, blob: seq<byte>)
    requires Packs(info, ifms, golds, given, blob)
    ensures |ifms| == |info.inputs| && |golds| == |info.outputs| && |blob| >= 4 * HEADER_WORDS
    ensures var p, h := PlanOf(info, ifms, golds, given), ReadWords(blob, 0, HEADER_WORDS);
      && h[1] == p.version
      && Describes(Tensor(h[8], h[9], h[10]), info.inputs[0], p.places[0])
      && Describes(Tensor(h[11], h[12], h[13]), info.outputs[0], p.places[|ifms|])
  {
    PackedHeader(info, ifms, golds, given, blob);
    HeaderNames(info, PlanOf(info, ifms, golds, given), ReadWords(blob, 0, HEADER_WORDS));
  }

  /** The IO table of a version-4 blob lists the tensors. */
  lemma PackedEntries(info: Info, ifms: seq<seq<byte>>, golds: seq<seq<byte>>, given: seq<int>, blob: seq<byte>)
    requires Packs(info, ifms, golds, given, blob) && PlanOf(info, ifms, golds, given).version == 4
    ensures |ifms| == |info.inputs| && |golds| == |info.outputs| && |ifms| + |golds| <= IO_MAX
    ensures |blob| >= HeaderBytes(4)
    ensures var t, places := ReadWords(blob, 4 * IO_WORD, IO_WORDS), PlanOf(info, ifms, golds, given).places;
      && t[0] == |ifms| && t[1] == |golds|
      && AllDescribe(Entries(t, 0, |ifms|), info.inputs, places[..|ifms|])
      && AllDescribe(Entries(t, |ifms|, |golds|), info.outputs, places[|ifms|..])
  {
    PackedTableWords(info, ifms, golds, given, blob);
    var p, t := PlanOf(info, ifms, golds, given), ReadWords(blob, 4 * IO_WORD, IO_WORDS);
    var tp := TablePart(info, p);
    assert t[0] == tp[0] && t[1] == tp[1] && t[2..2 + 3 * |p.places|] == tp[2..2 + 3 * |p.places|];
    TableReads(t, TableWords(info.inputs + info.outputs, p.places), info.inputs, info.outputs, p.places);
  }

  /** A table whose entries describe the tensors that the header's own words describe first is read as those entries. */
  lemma TableRead(blob: seq<byte>, h: seq<word>, t: seq<word>, ins: seq<(int, int)>, outs: seq<(int, int)>, a: seq<nat>,
                  b: seq<nat>)
    requires |h| == HEADER_WORDS && h[1] == 4 && |blob| >= HeaderBytes(4) && t == ReadWords(blob, 4 * IO_WORD, IO_WORDS)
    requires ins != [] && outs != [] && |ins| <= |a| && |outs| <= |b| && t[0] == |ins| && t[1] == |outs|
    requires |ins| + |outs| <= IO_MAX
    requires AllDescribe(Entries(t, 0, |ins|), ins, a) && AllDescribe(Entries(t, |ins|, |outs|), outs, b)
    requires Describes(Tensor(h[8], h[9], h[10]), ins[0], a[0]) && Describes(Tensor(h[11], h[12], h[13]), outs[0], b[0])
    ensures ReadTable(blob, h) == Ok((Entries(t, 0, |ins|), Entries(t, |ins|, |outs|)))
  {
    SameFirst(Entries(t, 0, |ins|), ins, a, Tensor(h[8], h[9], h[10]));
    SameFirst(Entries(t, |ins|, |outs|), outs, b, Tensor(h[11], h[12], h[13]));
  }

  lemma SameFirst(ts: seq<Tensor>, wanted: seq<(int, int)>, at: seq<nat>, first: Tensor)
    requires wanted != [] && |wanted| <= |at| && AllDescribe(ts, wanted, at) && Describes(first, wanted[0], at[0])
    ensures ts != [] && ts[0] == first
  {
  }

  /** The tensor lists come back, from the table or from the header words. */
  lemma PackedTable(info: Info, ifms: seq<seq<byte>>, golds: seq<seq<byte>>, given: seq<int>, blob: seq<byte>)
    requires Packs(info, ifms, golds, given, blob)
    ensures |ifms| == |info.inputs| && |golds| == |info.outputs| && |blob| >= 4 * HEADER_WORDS
    ensures var p, r := PlanOf(info, ifms, golds, given), ReadTable(blob, ReadWords(blob, 0, HEADER_WORDS));
      && r.Ok? && AllDescribe(r.value.0, info.inputs, p.places[..|ifms|])
      && AllDescribe(r.value.1, info.outputs, p.places[|ifms|..])
  {
    PackedFirst(info, ifms, golds, given, blob);
    var places := PlanOf(info, ifms, golds, given).places;
    if PlanOf(info, ifms, golds, given).version == 4 {
      PackedEntries(info, ifms, golds, given, blob);
      var t := ReadWords(blob, 4 * IO_WORD, IO_WORDS);
      var h, a, b := ReadWords(blob, 0, HEADER_WORDS), places[..|ifms|], places[|ifms|..];
      assert a[0] == places[0] && b[0] == places[|ifms|];
      TableRead(blob, h, t, info.inputs, info.outputs, a, b);
    }
  }

  /** What a reader of the header must find. */
  ghost predicate Recovers(h: Header, info: Info, golds: seq<seq<byte>>, ifms: seq<seq<byte>>, given: seq<int>, p: Plan)
    requires |p.places| == |ifms| + |golds| && |ifms| == |info.inputs| && |golds| == |info.outputs|
  {
    && h.version == p.version && h.cmsOff == p.cmsOff && h.cmsLen == |info.cms| && h.constOff == p.constOff
    && h.constLen == |info.consts| && h.arenaSize == info.arenaSize && h.fastSize == info.fastSize
    && h.irqMask == 0xFFFF && h.totalLen == p.total && h.knobs == KnobWords(given)
    && AllDescribe(h.inputs, info.inputs, p.places[..|ifms|])
    && AllDescribe(h.outputs, info.outputs, p.places[|ifms|..])
  }

  lemma DescribedInBounds(ts: seq<Tensor>, wanted: seq<(int, int)>, at: seq<nat>, data: seq<seq<byte>>, arena: word,
                          total: word)
    requires |wanted| == |at| && EndsInside(at, data, total) && AllDescribe(ts, wanted, at)
    requires forall i :: 0 <= i < |wanted| ==> wanted[i].1 == |data[i]| && wanted[i].0 + wanted[i].1 <= arena
    ensures AllInBounds(ts, arena, total)
  {
  }

  lemma TensorsChecked(info: Info, ifms: seq<seq<byte>>, golds: seq<seq<byte>>, given: seq<int>, blob: seq<byte>)
    requires Packs(info, ifms, golds, given, blob)
    ensures |ifms| == |info.inputs| && |golds| == |info.outputs|
    ensures forall i :: 0 <= i < |ifms| ==>
      info.inputs[i].1 == |ifms[i]| && info.inputs[i].0 + info.inputs[i].1 <= info.arenaSize
    ensures forall i :: 0 <= i < |golds| ==>
      info.outputs[i].1 == |golds[i]| && info.outputs[i].0 + info.outputs[i].1 <= info.arenaSize
  {
    var tensors, data := info.inputs + info.outputs, ifms + golds;
    assert forall i :: 0 <= i < |golds| ==> tensors[|ifms| + i] == info.outputs[i] && data[|ifms| + i] == golds[i];
    assert forall i :: 0 <= i < |ifms| ==> tensors[i] == info.inputs[i] && data[i] == ifms[i];
  }

  lemma DataBehindCode(info: Info, ifms: seq<seq<byte>>, golds: seq<seq<byte>>, i: nat)
    requires i < |ifms + golds|
    ensures |Data(info, ifms, golds)| == |ifms + golds| + 2 && Data(info, ifms, golds)[i + 2] == (ifms + golds)[i]
  {
  }

  lemma PlaceBehindCode(a: nat, b: nat, places: seq<nat>, i: nat)
    requires i < |places|
    ensures ([a, b] + places)[i + 2] == places[i]
  {
  }

  lemma TensorDataInBlob(info: Info, ifms: seq<seq<byte>>, golds: seq<seq<byte>>, given: seq<int>, blob: seq<byte>,
                         i: nat)
    requires Packs(info, ifms, golds, given, blob) && i < |ifms + golds|
    ensures |ifms| == |info.inputs| && |golds| == |info.outputs|
    ensures var p := PlanOf(info, ifms, golds, given); IsSection(blob, p.cmsOff, p.places[i], (ifms + golds)[i])
  {
    DataBehindCode(info, ifms, golds, i);
    SectionsHoldData(info, ifms, golds, given, blob, i + 2);
    var p := PlanOf(info, ifms, golds, given);
    PlaceBehindCode(p.cmsOff, p.constOff, p.places, i);
  }

  /** Every piece of data ends inside the blob. */
  ghost predicate EndsInside(places: seq<nat>, data: seq<seq<byte>>, total: nat) {
    |places| == |data| && forall i :: 0 <= i < |data| ==> places[i] + |data[i]| <= total
  }

  lemma DataEndsInside(info: Info, ifms: seq<seq<byte>>, golds: seq<seq<byte>>, given: seq<int>, blob: seq<byte>)
    requires Packs(info, ifms, golds, given, blob)
    ensures EndsInside(PlanOf(info, ifms, golds, given).places, ifms + golds, |blob|)
  {
    var places := PlanOf(info, ifms, golds, given).places;
    forall i | 0 <= i < |ifms + golds|
      ensures places[i] + |(ifms + golds)[i]| <= |blob|
    {
      TensorDataInBlob(info, ifms, golds, given, blob, i);
    }
  }

  lemma SplitEnds(places: seq<nat>, a: seq<seq<byte>>, b: seq<seq<byte>>, total: nat)
    requires EndsInside(places, a + b, total)
    ensures EndsInside(places[..|a|], a, total) && EndsInside(places[|a|..], b, total)
  {
  }

  lemma PackedBounds(info: Info, ifms: seq<seq<byte>>, golds: seq<seq<byte>>, given: seq<int>, blob: seq<byte>,
                     ins: seq<Tensor>, outs: seq<Tensor>, arena: word, total: word)
    requires Packs(info, ifms, golds, given, blob) && arena == info.arenaSize && total == |blob|
    requires |ifms| == |info.inputs| && |golds| == |info.outputs|
    requires AllDescribe(ins, info.inputs, PlanOf(info, ifms, golds, given).places[..|ifms|])
    requires AllDescribe(outs, info.outputs, PlanOf(info, ifms, golds, given).places[|ifms|..])
    ensures AllInBounds(ins, arena, total) && AllInBounds(outs, arena, total)
  {
    var places := PlanOf(info, ifms, golds, given).places;
    TensorsChecked(info, ifms, golds, given, blob);
    DataEndsInside(info, ifms, golds, given, blob);
    SplitEnds(places, ifms, golds, total);
    DescribedInBounds(ins, info.inputs, places[..|ifms|], ifms, arena, total);
    DescribedInBounds(outs, info.outputs, places[|ifms|..], golds, arena, total);
  }

  /** parse_header on a blob whose parts have been read. */
  lemma ParseParts(blob: seq<byte>, h: seq<word>, ins: seq<Tensor>, outs: seq<Tensor>)
    requires |blob| >= 4 * HEADER_WORDS && h == ReadWords(blob, 0, HEADER_WORDS)
    requires h[0] == PMWL_MAGIC && 1 <= h[1] <= 4 && |blob| >= HeaderBytes(h[1])
    requires ReadTable(blob, h) == Ok((ins, outs)) && AllInBounds(ins, h[6], h[15]) && AllInBounds(outs, h[6], h[15])
    ensures ParseHeader(blob)
         == Ok(Header(h[1], h[2], h[3], h[4], h[5], h[6], h[7], h[14], h[15], ReadKnobs(blob, h[1]), ins, outs))
  {
  }

  lemma PackedReads(info: Info, ifms: seq<seq<byte>>, golds: seq<seq<byte>>, given: seq<int>, blob: seq<byte>)
    returns (h: seq<word>, ins: seq<Tensor>, outs: seq<Tensor>)
    requires Packs(info, ifms, golds, given, blob)
    ensures |ifms| == |info.inputs| && |golds| == |info.outputs| && |blob| >= 4 * HEADER_WORDS
    ensures h == ReadWords(blob, 0, HEADER_WORDS) && h == HeaderPart(info, PlanOf(info, ifms, golds, given))
    ensures ReadTable(blob, h) == Ok((ins, outs))
    ensures AllDescribe(ins, info.inputs, PlanOf(info, ifms, golds, given).places[..|ifms|])
    ensures AllDescribe(outs, info.outputs, PlanOf(info, ifms, golds, given).places[|ifms|..])
  {
    PackedHeader(info, ifms, golds, given, blob);
    PackedTable(info, ifms, golds, given, blob);
    h := ReadWords(blob, 0, HEADER_WORDS);
    ins, outs := ReadTable(blob, h).value.0, ReadTable(blob, h).value.1;
  }

  /** The header words of a plan, one by one. */
  lemma HeaderWordsAre(info: Info, p: Plan, h: seq<word>)
    requires info.inputs != [] && info.outputs != [] && |p.places| == |info.inputs| + |info.outputs|
    requires h == HeaderPart(info, p)
    ensures h[0] == PMWL_MAGIC && h[1] == p.version && h[2] == p.cmsOff && h[3] == |info.cms| && h[4] == p.constOff
    ensures h[5] == |info.consts| && h[6] == info.arenaSize && h[7] == info.fastSize && h[14] == 0xFFFF
    ensures h[15] == p.total
  {
  }

  lemma PlanIsSound(info: Info, ifms: seq<seq<byte>>, golds: seq<seq<byte>>, given: seq<int>, blob: seq<byte>)
    requires Packs(info, ifms, golds, given, blob)
    ensures var p := PlanOf(info, ifms, golds, given); 1 <= p.version <= 4 && p.total == |blob|
  {
    var front := PackedShape(info, ifms, golds, given, blob);
  }

  /** A header made of the plan's words and the packed knobs and tensors recovers what was packed. */
  lemma WordsRecover(h: seq<word>, info: Info, golds: seq<seq<byte>>, ifms: seq<seq<byte>>, given: seq<int>, p: Plan,
                     knobs: seq<word>, ins: seq<Tensor>, outs: seq<Tensor>)
    requires |p.places| == |ifms| + |golds| && |ifms| == |info.inputs| && |golds| == |info.outputs|
    requires info.inputs != [] && info.outputs != [] && h == HeaderPart(info, p) && knobs == KnobWords(given)
    requires AllDescribe(ins, info.inputs, p.places[..|ifms|]) && AllDescribe(outs, info.outputs, p.places[|ifms|..])
    ensures Recovers(Header(h[1], h[2], h[3], h[4], h[5], h[6], h[7], h[14], h[15], knobs, ins, outs),
                     info, golds, ifms, given, p)
  {
    HeaderWordsAre(info, p, h);
  }

  /**
   Whatever pack accepts, parse_header accepts, and it reads back exactly what was packed: every header field, all
   sixteen knob words, and both tensor lists with the places their data was put.
   */
  lemma PackThenParse(info: Info, ifms: seq<seq<byte>>, golds: seq<seq<byte>>, given: seq<int>, blob: seq<byte>)
    requires Packs(info, ifms, golds, given, blob)
    ensures |ifms| == |info.inputs| && |golds| == |info.outputs|
    ensures ParseHeader(blob).Ok? && |blob| == ParseHeader(blob).value.totalLen
    ensures |blob| >= HeaderBytes(ParseHeader(blob).value.version)
    ensures Recovers(ParseHeader(blob).value, info, golds, ifms, given, PlanOf(info, ifms, golds, given))
  {
    var p := PlanOf(info, ifms, golds, given);
    var h, ins, outs := PackedReads(info, ifms, golds, given, blob);
    HeaderWordsAre(info, p, h);
    PlanIsSound(info, ifms, golds, given, blob);
    PackedKnobs(info, ifms, golds, given, blob);
    PackedBounds(info, ifms, golds, given, blob, ins, outs, h[6], h[15]);
    ParseParts(blob, h, ins, outs);
    WordsRecover(h, info, golds, ifms, given, p, ReadKnobs(blob, h[1]), ins, outs);
  }

  lemma {:induction false} PaddedZeros(parts: seq<seq<byte>>, i: nat, j: nat)
    requires i < |parts| && |parts[i]| <= j < Align(|parts[i]|)
    ensures |Sections(parts[..i])| + j < |Sections(parts)| && Sections(parts)[|Sections(parts[..i])| + j] == 0
    decreases i
  {
    if i > 0 {
      assert parts[..i][1..] == parts[1..][..i - 1];
      PaddedZeros(parts[1..], i - 1, j);
    } else {
      assert parts[..0] == [];
    }
  }

  /** The byte `j` places behind `at` is there, and zero. */
  predicate ZeroAt(blob: seq<byte>, at: nat, j: nat) {
    at + j < |blob| && blob[at + j] == 0
  }

  /** Between a section's data and the next multiple of sixteen, a packed blob holds zeros. */
  lemma PackedPaddingIsZero(info: Info, ifms: seq<seq<byte>>, golds: seq<seq<byte>>, given: seq<int>, blob: seq<byte>,
                            i: nat, j: nat)
    requires Packs(info, ifms, golds, given, blob) && i < |Data(info, ifms, golds)|
    requires |Data(info, ifms, golds)[i]| <= j && (j + 15) / 16 == (|Data(info, ifms, golds)[i]| + 15) / 16
    requires j % 16 != 0
    ensures |ifms| == |info.inputs| && |golds| == |info.outputs|
    ensures var p := PlanOf(info, ifms, golds, given); ZeroAt(blob, ([p.cmsOff, p.constOff] + p.places)[i], j)
  {
    var front := PackedShape(info, ifms, golds, given, blob);
    var at := ZeroBehind(front, Data(info, ifms, golds), i, j, blob);
  }

  lemma ZeroBehind(front: seq<byte>, parts: seq<seq<byte>>, i: nat, j: nat, blob: seq<byte>) returns (at: nat)
    requires i < |parts| && blob == front + Sections(parts)
    requires |parts[i]| <= j && (j + 15) / 16 == (|parts[i]| + 15) / 16 && j % 16 != 0
    ensures at == Places(|front|, parts)[i] && ZeroAt(blob, at, j)
  {
    PaddedZeros(parts, i, j);
    PlaceOf(|front|, parts, i);
    at := Places(|front|, parts)[i];
  }

  /** The blob's bytes from `at` on are these. */
  predicate HoldsAt(blob: seq<byte>, at: int, part: seq<byte>) {
    0 <= at && at + |part| <= |blob| && blob[at..at + |part|] == part
  }

  /** The words of a packed header, each in its place: what they point at lies there. */
  predicate HeaderPoints(h: seq<word>, blob: seq<byte>, info: Info, ifm: seq<byte>, gold: seq<byte>)
    requires |h| == 16 && info.inputs != [] && info.outputs != []
  {
    && h[0] == 0x4C57_4D50 && 1 <= h[1] <= 4 && h[3] == |info.cms| && HoldsAt(blob, h[2], info.cms)
    && h[5] == |info.consts| && HoldsAt(blob, h[4], info.consts) && h[6] == info.arenaSize && h[7] == info.fastSize
    && h[8] == info.inputs[0].0 && h[9] == info.inputs[0].1 == |ifm| && HoldsAt(blob, h[10], ifm)
    && h[11] == info.outputs[0].0 && h[12] == info.outputs[0].1 == |gold| && HoldsAt(blob, h[13], gold)
    && h[14] == 0xFFFF && h[15] == |blob|
  }

  lemma SectionHeld(info: Info, ifms: seq<seq<byte>>, golds: seq<seq<byte>>, given: seq<int>, blob: seq<byte>, i: nat)
    requires Packs(info, ifms, golds, given, blob) && i < |Data(info, ifms, golds)|
    ensures |ifms| == |info.inputs| && |golds| == |info.outputs|
    ensures var p := PlanOf(info, ifms, golds, given);
      HoldsAt(blob, ([p.cmsOff, p.constOff] + p.places)[i], Data(info, ifms, golds)[i])
  {
    SectionsHoldData(info, ifms, golds, given, blob, i);
  }

  /** A packed blob starts with sixteen words that say what it holds and where. */
  lemma PackedHeaderPoints(info: Info, ifms: seq<seq<byte>>, golds: seq<seq<byte>>, given: seq<int>, blob: seq<byte>)
    requires Packs(info, ifms, golds, given, blob)
    ensures |ifms| == |info.inputs| && |golds| == |info.outputs| && |blob| >= 64 && ifms != [] && golds != []
    ensures HeaderPoints(ReadWords(blob, 0, 16), blob, info, ifms[0], golds[0])
  {
    var p, h, n := PlanOf(info, ifms, golds, given), ReadWords(blob, 0, 16), |ifms|;
    PackedHeader(info, ifms, golds, given, blob);
    HeaderWordsAre(info, p, h);
    PlanIsSound(info, ifms, golds, given, blob);
    TensorsChecked(info, ifms, golds, given, blob);
    SectionHeld(info, ifms, golds, given, blob, 0);
    SectionHeld(info, ifms, golds, given, blob, 1);
    SectionHeld(info, ifms, golds, given, blob, 2);
    SectionHeld(info, ifms, golds, given, blob, 2 + n);
    FirstPlaces(info, ifms, golds, p);
    HeaderNames(info, p, h);
  }

  lemma FirstPlaces(info: Info, ifms: seq<seq<byte>>, golds: seq<seq<byte>>, p: Plan)
    requires ifms != [] && golds != [] && |p.places| == |ifms| + |golds|
    ensures var at, data := [p.cmsOff, p.constOff] + p.places, Data(info, ifms, golds);
      && at[0] == p.cmsOff && at[1] == p.constOff && at[2] == p.places[0] && at[2 + |ifms|] == p.places[|ifms|]
      && data[0] == info.cms && data[1] == info.consts && data[2] == ifms[0] && data[2 + |ifms|] == golds[0]
  {
  }
}
