/** pack, as the host runs it: offsets first, then slices written into a zeroed buffer. */
module PmwlPacker {
  import opened Bytes
  import opened Pmwl

  function Zeros(n: nat): (z: seq<byte>)
    ensures |z| == n
  {
    seq(n, _ => 0)
  }

  /** blob[off:off + len(b)] = b */
  method WriteSlice(blob: array<byte>, off: nat, b: seq<byte>)
    requires off + |b| <= blob.Length
    modifies blob
    ensures blob[..] == old(blob[..off]) + b + old(blob[off + |b|..])
  {
    for i := 0 to |b|
      invariant blob[..] == old(blob[..off]) + b[..i] + old(blob[off + i..])
    {
      blob[off + i] := b[i];
    }
    assert b[..|b|] == b;
  }

  lemma NextOffset(offs: seq<nat>, end: nat, parts: seq<seq<byte>>, i: nat)
    requires i < |parts|
    ensures var next := end + Align(|parts[i]|);
      && offs + Places(end, parts[i..]) == (offs + [end]) + Places(next, parts[i + 1..])
      && end + |Sections(parts[i..])| == next + |Sections(parts[i + 1..])|
  {
    var left, rest := parts[i..], Places(end + Align(|parts[i]|), parts[i + 1..]);
    assert left[0] == parts[i] && left[1..] == parts[i + 1..];
    Regroup(offs, [end], rest);
  }

  /** The offsets of the data sections, and the end of the last one. */
  method DataOffsets(start: nat, parts: seq<seq<byte>>) returns (offs: seq<nat>, end: nat)
    ensures offs == Places(start, parts) && end == start + |Sections(parts)|
  {
    offs, end := [], start;
    for i := 0 to |parts|
      invariant offs + Places(end, parts[i..]) == Places(start, parts)
      invariant end + |Sections(parts[i..])| == start + |Sections(parts)|
    {
      NextOffset(offs, end, parts, i);
      offs := offs + [end];
      end := end + Align(|parts[i]|);
    }
  }

  lemma NextSection(front: seq<byte>, parts: seq<seq<byte>>, i: nat, n: nat)
    requires i < |parts| && Align(|parts[i]|) <= n
    ensures front + Sections(parts[..i]) + parts[i] + Zeros(n - |parts[i]|)
         == front + Sections(parts[..i + 1]) + Zeros(n - Align(|parts[i]|))
  {
    SectionsSplit(parts[..i + 1], i);
    assert parts[..i + 1][..i] == parts[..i] && parts[..i + 1][i..] == [parts[i]];
    assert Sections([parts[i]]) == Padded(parts[i]);
    assert parts[i] + Zeros(n - |parts[i]|) == Padded(parts[i]) + Zeros(n - Align(|parts[i]|));
  }

  lemma RoomForSection(parts: seq<seq<byte>>, i: nat)
    requires i < |parts|
    ensures |Sections(parts)| - |Sections(parts[..i])| == Align(|parts[i]|) + |Sections(parts[i + 1..])|
  {
    SectionsSplit(parts, i);
    assert parts[i..][0] == parts[i] && parts[i..][1..] == parts[i + 1..];
  }

  /** Every section written to its place, the gaps left zero. */
  method WriteSections(blob: array<byte>, front: seq<byte>, parts: seq<seq<byte>>, offs: seq<nat>)
    requires blob.Length == |front| + |Sections(parts)| && offs == Places(|front|, parts)
    requires blob[..] == front + Zeros(|Sections(parts)|)
    modifies blob
    ensures blob[..] == front + Sections(parts)
  {
    for i := 0 to |parts|
      invariant Written(blob[..], front, parts, i)
    {
      WriteNext(blob, front, parts, i, offs[i]);
    }
    assert parts[..|parts|] == parts;
  }

  /** The sections before the `i`-th have been written, and zeros stand for the others. */
  ghost predicate Written(s: seq<byte>, front: seq<byte>, parts: seq<seq<byte>>, i: nat) {
    && i <= |parts| && |Sections(parts[..i])| <= |Sections(parts)|
    && s == front + Sections(parts[..i]) + Zeros(|Sections(parts)| - |Sections(parts[..i])|)
  }

  method WriteNext(blob: array<byte>, front: seq<byte>, parts: seq<seq<byte>>, i: nat, off: nat)
    requires i < |parts| && Written(blob[..], front, parts, i) && off == Places(|front|, parts)[i]
    modifies blob
    ensures Written(blob[..], front, parts, i + 1)
  {
    PlaceOf(|front|, parts, i);
    RoomForSection(parts, i);
    ghost var was, done, n := blob[..], front + Sections(parts[..i]), |Sections(parts)| - |Sections(parts[..i])|;
    NextSection(front, parts, i, n);
    assert was == done + Zeros(n) && |done| == off;
    WriteSlice(blob, off, parts[i]);
    OverZeros(done, n, parts[i]);
  }

  /** Data written over the zeros behind what is done. */
  lemma OverZeros(done: seq<byte>, n: nat, part: seq<byte>)
    requires |part| <= n
    ensures var s := done + Zeros(n);
      s[..|done|] + part + s[|done| + |part|..] == done + part + Zeros(n - |part|)
  {
  }

  /** The zeroed buffer, the front words written first and then every section. */
  method Assemble(front: seq<byte>, parts: seq<seq<byte>>, offs: seq<nat>, total: nat) returns (blob: array<byte>)
    requires total == |front| + |Sections(parts)| && offs == Places(|front|, parts)
    ensures fresh(blob) && blob[..] == front + Sections(parts)
  {
    blob := new byte[total](_ => 0);
    assert blob[..] == Zeros(total);
    WriteSlice(blob, 0, front);
    assert blob[..] == front + Zeros(|Sections(parts)|);
    WriteSections(blob, front, parts, offs);
  }

  /** The words and offsets pack works out before it writes: they are those of the plan. */
  method LayOut(info: Info, ifms: seq<seq<byte>>, golds: seq<seq<byte>>, k: seq<int>) returns (p: Plan)
    requires |k| == KNOB_WORDS
    ensures p == MakePlan(info, ifms, golds, k)
  {
    var version := PackVersion(|info.inputs| + |info.outputs|, k);
    var cmsOff := HeaderBytes(version);
    var constOff := cmsOff + Align(|info.cms|);
    var offs, total := DataOffsets(constOff + Align(|info.consts|), ifms + golds);
    p := Plan(version, cmsOff, constOff, offs, total);
  }

  /** The second half of pack, from the plan on. */
  method Write(info: Info, ws: seq<int>, data: seq<seq<byte>>, offs: seq<nat>, total: nat)
    returns (r: Result<seq<byte>, PackError>)
    requires total == 4 * |ws| + |Sections(data)| && offs == Places(4 * |ws|, data)
    ensures r == Assembled(info, ws, data)
  {
    if !AllWords(ws) || |info.cms| < 4 {
      return Err(WordOutOfRange);
    }
    var blob := Assemble(Words(AsWords(ws)), data, offs, total);
    if Rd32(info.cms, |info.cms| - 4) != 0xFFFF0000 {
      return Err(NoStop);
    }
    return Ok(blob[..]);
  }

  /** pack */
  method PackBlob(info: Info, ifms: seq<seq<byte>>, golds: seq<seq<byte>>, given: seq<int>)
    returns (r: Result<seq<byte>, PackError>)
    requires info.inputs != [] && info.outputs != []
    ensures r == Pack(info, ifms, golds, given)
  {
    if |ifms| != |info.inputs| || |golds| != |info.outputs| {
      return Err(CountMismatch);
    }
    if |info.inputs + info.outputs| > IO_MAX {
      return Err(TooManyTensors);
    }
    var bad := CheckTensors(info.inputs + info.outputs, ifms + golds, info.arenaSize);
    if bad.Some? {
      return Err(bad.value);
    }
    var k := KnobWords(given);
    var p := LayOut(info, ifms, golds, k);
    PlanPlaces(info, ifms, golds, k);
    r := Write(info, FrontWords(info, k, p), Data(info, ifms, golds), [p.cmsOff, p.constOff] + p.places, p.total);
  }
}
