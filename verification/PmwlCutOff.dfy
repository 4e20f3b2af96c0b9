/** Blobs cut off inside their own header: what the firmware, which reads on into staging, can be brought to accept. */
module PmwlCutOff {
  import opened Bytes
  import opened Pmwl
  import opened PmwlFirmware

  /** Too short for its header: the host refuses it, whatever it says. */
  predicate CutOff(blob: seq<byte>) {
    |blob| < 64 || |blob| < HeaderBytes(ReadWords(blob, 0, HEADER_WORDS)[1])
  }

  predicate HostAccepts(blob: seq<byte>) {
    ParseHeader(blob).Ok? && ParseHeader(blob).value.totalLen == |blob|
  }

  lemma HostRefusesCutOff(blob: seq<byte>)
    requires CutOff(blob)
    ensures ParseHeader(blob).Err?
  {
  }

  // ---- versions without an IO table ----

  function FirstIn(h: seq<word>): Tensor
    requires |h| == HEADER_WORDS
  {
    Tensor(h[8], h[9], h[10])
  }

  function FirstOut(h: seq<word>): Tensor
    requires |h| == HEADER_WORDS
  {
    Tensor(h[11], h[12], h[13])
  }

  /** The sixteen header words alone name the uploaded length, and an IFM and an OFM that lie in bounds. */
  predicate HeaderFits(h: seq<word>, total: nat)
    requires |h| == HEADER_WORDS
  {
    && h[0] == PMWL_MAGIC && 1 <= h[1] <= 4 && h[15] == total
    && InBounds(FirstIn(h), h[6], h[15]) && InBounds(FirstOut(h), h[6], h[15])
  }

  /** Without an IO table the firmware decides on these sixteen words, whether or not the knob words were uploaded. */
  lemma AcceptedByHeader(blob: seq<byte>, window: seq<byte>)
    requires StagedAs(blob, window) && 64 <= |blob| < U32 && ReadWords(blob, 0, HEADER_WORDS)[1] != 4
    ensures Accepted(window, |blob|) <==> HeaderFits(ReadWords(blob, 0, HEADER_WORDS), |blob|)
  {
    SameHeader(blob, window);
    var h := ReadWords(blob, 0, HEADER_WORDS);
    OneInBounds(FirstIn(h), h[6], h[15]);
    OneInBounds(FirstOut(h), h[6], h[15]);
  }

  lemma OneInBounds(t: Tensor, arena: word, total: word)
    ensures AllInBounds([t], arena, total) <==> InBounds(t, arena, total)
  {
    assert [t][0] == t;
  }

  lemma SameHeader(blob: seq<byte>, window: seq<byte>)
    requires StagedAs(blob, window) && 64 <= |blob|
    ensures ReadWords(window, 0, HEADER_WORDS) == ReadWords(blob, 0, HEADER_WORDS)
  {
    assert blob[..64] == window[..64];
    PrefixWords(blob, blob[..64], 0, HEADER_WORDS);
    PrefixWords(window, blob[..64], 0, HEADER_WORDS);
  }

  // ---- the completion ----

  /** `blob`, and behind it what `under` holds there. */
  function Over(blob: seq<byte>, under: seq<byte>): (r: seq<byte>)
    ensures |r| == |under|
    ensures forall i :: 0 <= i < |r| ==> r[i] == if i < |blob| then blob[i] else under[i]
  {
    seq(|under|, i requires 0 <= i < |under| => if i < |blob| then blob[i] else under[i])
  }

  /** The header words and tensor counts most easily accepted: no knobs, a huge arena, empty tensors, one of each. */
  function EasiestFront(total: word): (ws: seq<word>)
    ensures |ws| == 34
  {
    [PMWL_MAGIC, 1, 0, 0, 0, 0, 0xFFFFFFFF, 0, 0, 0, 0, 0, 0, 0, 0, total]
    + [0, 0, 0, 0, 0, 0, 0, 0, 0, 0, 0, 0, 0, 0, 0, 0, 1, 1]
  }

  /** The table entries most easily accepted under a header: its own IFM and OFM, and empty tensors besides. */
  function EasiestEntries(h: seq<word>, nIn: word): (ws: seq<word>)
    requires |h| == HEADER_WORDS
    ensures |ws| == 30
  {
    seq(30, i requires 0 <= i < 30 =>
              if i < 3 then h[8 + i] else if 3 * nIn <= i < 3 * nIn + 3 then h[11 + i - 3 * nIn] else 0)
  }

  function Front(blob: seq<byte>): (s: seq<byte>)
    requires |blob| < HEADER_WINDOW
    ensures |s| == 136
  {
    Over(blob, Words(EasiestFront(|blob|)))
  }

  /** What a cut-off blob is completed with, word by word. */
  function UnderWords(blob: seq<byte>): (ws: seq<word>)
    requires |blob| < HEADER_WINDOW
    ensures |ws| == 64
  {
    EasiestFront(|blob|) + EasiestEntries(ReadWords(Front(blob), 0, HEADER_WORDS), Rd32(Front(blob), 128))
  }

  /** The staging window that makes the most of a cut-off blob. */
  function Completion(blob: seq<byte>): (s: seq<byte>)
    requires |blob| < HEADER_WINDOW
    ensures |s| == HEADER_WINDOW && StagedAs(blob, s)
  {
    Over(blob, Words(UnderWords(blob)))
  }

  // ---- words of which the first bytes come from one place and the others from another ----

  /** `c` is `w` up to byte `n`, and `u` behind it. */
  predicate Mixes(c: seq<byte>, w: seq<byte>, u: seq<byte>, n: nat) {
    |c| == |w| == |u| && forall i :: 0 <= i < |c| ==> c[i] == if i < n then w[i] else u[i]
  }

  lemma WholeWord(c: seq<byte>, w: seq<byte>, u: seq<byte>, n: nat, at: nat)
    requires Mixes(c, w, u, n) && at + 4 <= |c|
    ensures n >= at + 4 ==> Rd32(c, at) == Rd32(w, at)
    ensures n <= at ==> Rd32(c, at) == Rd32(u, at)
  {
  }

  lemma SmallestWord(c: seq<byte>, w: seq<byte>, u: seq<byte>, n: nat, at: nat)
    requires Mixes(c, w, u, n) && at + 4 <= |c| && Rd32(u, at) == 0
    ensures Rd32(c, at) <= Rd32(w, at)
  {
    assert u[at] == 0 && u[at + 1] == 0 && u[at + 2] == 0 && u[at + 3] == 0;
    assert c[at] <= w[at] && c[at + 1] <= w[at + 1] && c[at + 2] <= w[at + 2] && c[at + 3] <= w[at + 3];
  }

  lemma LargestWord(c: seq<byte>, w: seq<byte>, u: seq<byte>, n: nat, at: nat)
    requires Mixes(c, w, u, n) && at + 4 <= |c| && Rd32(u, at) == 0xFFFFFFFF
    ensures Rd32(c, at) >= Rd32(w, at)
  {
    assert u[at] == 255 && u[at + 1] == 255 && u[at + 2] == 255 && u[at + 3] == 255;
    assert c[at] >= w[at] && c[at + 1] >= w[at + 1] && c[at + 2] >= w[at + 2] && c[at + 3] >= w[at + 3];
  }

  lemma SameBytes(w: seq<byte>, u: seq<byte>, at: nat)
    requires at + 4 <= |w| && at + 4 <= |u| && Rd32(w, at) == Rd32(u, at)
    ensures w[at] == u[at] && w[at + 1] == u[at + 1] && w[at + 2] == u[at + 2] && w[at + 3] == u[at + 3]
  {
    EncodeRead(w, at);
    EncodeRead(u, at);
    assert w[at..at + 4][0] == w[at] && w[at..at + 4][1] == w[at + 1] && w[at..at + 4][2] == w[at + 2];
    assert w[at..at + 4][3] == w[at + 3];
    assert u[at..at + 4][0] == u[at] && u[at..at + 4][1] == u[at + 1] && u[at..at + 4][2] == u[at + 2];
    assert u[at..at + 4][3] == u[at + 3];
  }

  lemma AgreedWord(c: seq<byte>, w: seq<byte>, u: seq<byte>, n: nat, at: nat)
    requires Mixes(c, w, u, n) && at + 4 <= |c| && Rd32(u, at) == Rd32(w, at)
    ensures Rd32(c, at) == Rd32(w, at)
  {
    SameBytes(w, u, at);
  }

  /** A small number of which one byte is known is known. */
  lemma SmallWord(c: seq<byte>, w: seq<byte>, u: seq<byte>, n: nat, at: nat)
    requires Mixes(c, w, u, n) && at + 4 <= |c| && Rd32(u, at) == 1 && Rd32(w, at) < 256
    ensures Rd32(c, at) == if n > at then Rd32(w, at) else 1
  {
    assert w[at + 1] == 0 && w[at + 2] == 0 && w[at + 3] == 0;
    assert u[at + 1] == 0 && u[at + 2] == 0 && u[at + 3] == 0;
  }

  // ---- acceptance, word by word ----

  predicate TableFits(h: seq<word>, t: seq<word>)
    requires |h| == HEADER_WORDS && |t| == IO_WORDS
  {
    && t[0] >= 1 && t[1] >= 1 && t[0] + t[1] <= IO_MAX
    && Entry(t, 0) == FirstIn(h) && Entry(t, t[0]) == FirstOut(h)
    && forall i :: 0 <= i < t[0] + t[1] ==> InBounds(Entry(t, i), h[6], h[15])
  }

  lemma TableAccepted(s: seq<byte>, h: seq<word>, t: seq<word>)
    requires |s| == HEADER_WINDOW && |h| == HEADER_WORDS && h[1] == 4 && t == ReadWords(s, 4 * IO_WORD, IO_WORDS)
    ensures var r := ReadTable(s, h);
      TableFits(h, t) <==> r.Ok? && AllInBounds(r.value.0, h[6], h[15]) && AllInBounds(r.value.1, h[6], h[15])
  {
    if t[0] >= 1 && t[1] >= 1 && t[0] + t[1] <= IO_MAX {
      var ins, outs := Entries(t, 0, t[0]), Entries(t, t[0], t[1]);
      assert ins[0] == Entry(t, 0) && outs[0] == Entry(t, t[0]);
      BoundsOfSum(ins, outs, h[6], h[15]);
      EntriesOfSum(t, t[0], t[1]);
      BoundsOfEntries(t, t[0] + t[1], h[6], h[15]);
    }
  }

  lemma BoundsOfEntries(t: seq<word>, n: nat, arena: word, total: word)
    requires 3 * n + 2 <= |t|
    ensures AllInBounds(Entries(t, 0, n), arena, total)
       <==> forall i :: 0 <= i < n ==> InBounds(Entry(t, i), arena, total)
  {
    var es := Entries(t, 0, n);
    assert forall i :: 0 <= i < n ==> es[i] == Entry(t, i);
    if AllInBounds(es, arena, total) {
      forall i | 0 <= i < n
        ensures InBounds(Entry(t, i), arena, total)
      {
        assert InBounds(es[i], arena, total);
      }
    }
  }

  lemma AcceptedInWords(s: seq<byte>, total: word)
    requires |s| == HEADER_WINDOW
    ensures var h := ReadWords(s, 0, HEADER_WORDS);
      Accepted(s, total) <==> HeaderFits(h, total) && (h[1] == 4 ==> TableFits(h, ReadWords(s, 4 * IO_WORD, IO_WORDS)))
  {
    var h := ReadWords(s, 0, HEADER_WORDS);
    if h[1] == 4 {
      TableAccepted(s, h, ReadWords(s, 4 * IO_WORD, IO_WORDS));
    } else {
      OneInBounds(FirstIn(h), h[6], h[15]);
      OneInBounds(FirstOut(h), h[6], h[15]);
    }
  }

  // ---- the completion is accepted when anything is ----

  lemma CompletionMixes(blob: seq<byte>, w: seq<byte>) returns (c: seq<byte>, u: seq<byte>)
    requires StagedAs(blob, w) && |w| == HEADER_WINDOW && |blob| < HEADER_WINDOW
    ensures c == Completion(blob) && u == Words(UnderWords(blob)) && Mixes(c, w, u, |blob|) && |c| == HEADER_WINDOW
    ensures forall k :: 0 <= k < 64 ==> Rd32(u, 4 * k) == UnderWords(blob)[k]
  {
    c, u := Completion(blob), Words(UnderWords(blob));
    forall k | 0 <= k < 64
      ensures Rd32(u, 4 * k) == UnderWords(blob)[k]
    {
      ReadWordAt(UnderWords(blob), k);
    }
  }

  /** The front the entries were chosen by is the front of the completion. */
  lemma FrontCompleted(blob: seq<byte>)
    requires |blob| < HEADER_WINDOW
    ensures ReadWords(Completion(blob), 0, HEADER_WORDS) == ReadWords(Front(blob), 0, HEADER_WORDS)
    ensures Rd32(Completion(blob), 128) == Rd32(Front(blob), 128)
  {
    var c, f := Completion(blob), Front(blob);
    WordsAppend(EasiestFront(|blob|), EasiestEntries(ReadWords(f, 0, HEADER_WORDS), Rd32(f, 128)));
    assert c[..136] == f;
    PrefixWords(c, f, 0, HEADER_WORDS);
  }

  /**
   What of the header the completion keeps, words that only have to be right, and words that only have to be small.
   */
  ghost predicate EasierHeader(h: seq<word>, g: seq<word>)
    requires |h| == |g| == HEADER_WORDS
  {
    && h[0] == g[0] && (h[1] == g[1] || h[1] == 1) && h[15] == g[15] && h[6] >= g[6]
    && h[8] <= g[8] && h[9] <= g[9] && h[10] <= g[10] && h[11] <= g[11] && h[12] <= g[12] && h[13] <= g[13]
  }

  lemma HeaderIsEasier(blob: seq<byte>, w: seq<byte>)
    requires StagedAs(blob, w) && |w| == HEADER_WINDOW && |blob| < HEADER_WINDOW
    requires Rd32(w, 0) == PMWL_MAGIC && 1 <= Rd32(w, 4) <= 4 && Rd32(w, 60) == |blob|
    ensures EasierHeader(ReadWords(Completion(blob), 0, HEADER_WORDS), ReadWords(w, 0, HEADER_WORDS))
  {
    var c, u := CompletionMixes(blob, w);
    var n, ws := |blob|, UnderWords(blob);
    assert ws[0] == PMWL_MAGIC && ws[1] == 1 && ws[6] == 0xFFFFFFFF && ws[15] == n;
    assert Rd32(u, 4 * 6) == ws[6] && Rd32(u, 4 * 15) == ws[15];
    AgreedWord(c, w, u, n, 0);
    SmallWord(c, w, u, n, 4);
    LargestWord(c, w, u, n, 24);
    forall k | 8 <= k < 14
      ensures Rd32(c, 4 * k) <= Rd32(w, 4 * k)
    {
      assert UnderWords(blob)[k] == EasiestFront(|blob|)[k] == 0;
      SmallestWord(c, w, u, n, 4 * k);
    }
    AgreedWord(c, w, u, n, 60);
  }

  lemma HeaderCompleted(blob: seq<byte>, w: seq<byte>)
    requires StagedAs(blob, w) && |w| == HEADER_WINDOW && |blob| < HEADER_WINDOW
    requires HeaderFits(ReadWords(w, 0, HEADER_WORDS), |blob|)
    ensures var h, g := ReadWords(Completion(blob), 0, HEADER_WORDS), ReadWords(w, 0, HEADER_WORDS);
      HeaderFits(h, |blob|) && (h[1] == g[1] || h[1] == 1) && (|blob| >= 64 ==> h == g)
  {
    HeaderIsEasier(blob, w);
    if |blob| >= 64 {
      SameHeader(blob, w);
      SameHeader(blob, Completion(blob));
    }
  }

  lemma CountsCompleted(blob: seq<byte>, w: seq<byte>)
    requires StagedAs(blob, w) && |w| == HEADER_WINDOW && |blob| < HEADER_WINDOW && Rd32(w, 128) < 256
    requires Rd32(w, 132) < 256
    ensures Rd32(Completion(blob), 128) == if |blob| > 128 then Rd32(w, 128) else 1
    ensures Rd32(Completion(blob), 132) == if |blob| > 132 then Rd32(w, 132) else 1
  {
    var c, u := CompletionMixes(blob, w);
    assert UnderWords(blob)[32] == 1 && UnderWords(blob)[33] == 1;
    SmallWord(c, w, u, |blob|, 128);
    SmallWord(c, w, u, |blob|, 132);
  }

  /**
   Word `j` of the completed table is the easiest where that is known or free to choose, and small where that is small.
   */
  ghost predicate WordCompleted(t: seq<word>, tw: seq<word>, easiest: seq<word>, unseen: bool, j: nat)
    requires |t| == |tw| == |easiest| == IO_WORDS && j < IO_WORDS
  {
    (unseen || tw[j] == easiest[j] ==> t[j] == easiest[j]) && (easiest[j] == 0 ==> t[j] <= tw[j])
  }

  ghost predicate WordsCompleted(t: seq<word>, tw: seq<word>, easiest: seq<word>, unseen: bool)
    requires |t| == |tw| == |easiest| == IO_WORDS
  {
    forall j :: 2 <= j < IO_WORDS ==> WordCompleted(t, tw, easiest, unseen, j)
  }

  function EasiestTable(h: seq<word>, nIn: word): (ws: seq<word>)
    requires |h| == HEADER_WORDS
    ensures |ws| == IO_WORDS
  {
    [1, 1] + EasiestEntries(h, nIn)
  }

  lemma TableWordCompleted(blob: seq<byte>, w: seq<byte>, j: nat)
    requires StagedAs(blob, w) && |w| == HEADER_WINDOW && |blob| < HEADER_WINDOW && 2 <= j < 32
    ensures var c := Completion(blob);
      WordCompleted(ReadWords(c, 128, IO_WORDS), ReadWords(w, 128, IO_WORDS),
                    EasiestTable(ReadWords(c, 0, HEADER_WORDS), Rd32(c, 128)), |blob| <= 136, j)
  {
    var c, u := CompletionMixes(blob, w);
    assert 4 * (32 + j) == 128 + 4 * j;
    EasiestWord(blob, j);
    MixedWord(c, w, u, |blob|, 128 + 4 * j);
  }

  /** Behind its front, the completion's words come from the easiest table of the completion itself. */
  lemma EasiestWord(blob: seq<byte>, j: nat)
    requires |blob| < HEADER_WINDOW && 2 <= j < 32
    ensures var c := Completion(blob);
      UnderWords(blob)[32 + j] == EasiestTable(ReadWords(c, 0, HEADER_WORDS), Rd32(c, 128))[j]
  {
    FrontCompleted(blob);
  }

  lemma MixedWord(c: seq<byte>, w: seq<byte>, u: seq<byte>, n: nat, at: nat)
    requires Mixes(c, w, u, n) && at + 4 <= |c|
    ensures n <= at || Rd32(u, at) == Rd32(w, at) ==> Rd32(c, at) == Rd32(u, at)
    ensures Rd32(u, at) == 0 ==> Rd32(c, at) <= Rd32(w, at)
  {
    WholeWord(c, w, u, n, at);
    if Rd32(u, at) == Rd32(w, at) {
      AgreedWord(c, w, u, n, at);
    }
    if Rd32(u, at) == 0 {
      SmallestWord(c, w, u, n, at);
    }
  }

  /** A tensor no larger in any word than another. */
  ghost predicate Smaller(t: Tensor, s: Tensor) { t.arenaOff <= s.arenaOff && t.len <= s.len && t.dataOff <= s.dataOff }

  /**
   Entry `i` of a completed table: the header's own tensors where they belong, else no larger than in any other table.
   */
  ghost predicate EntryCompleted(t: seq<word>, tw: seq<word>, h: seq<word>, unseen: bool, i: nat)
    requires |t| == |tw| == IO_WORDS && |h| == HEADER_WORDS && i < IO_MAX && t[0] < IO_MAX
  {
    && (i == 0 && (unseen || Entry(tw, 0) == FirstIn(h)) ==> Entry(t, 0) == FirstIn(h))
    && (i == t[0] && (unseen || Entry(tw, i) == FirstOut(h)) ==> Entry(t, i) == FirstOut(h))
    && (i != 0 && i != t[0] ==> Smaller(Entry(t, i), Entry(tw, i)) && (unseen ==> Entry(t, i) == Tensor(0, 0, 0)))
  }

  lemma EntryOfWords(t: seq<word>, tw: seq<word>, h: seq<word>, unseen: bool, i: nat)
    requires |t| == |tw| == IO_WORDS && |h| == HEADER_WORDS && i < IO_MAX && 1 <= t[0] < IO_MAX
    requires WordsCompleted(t, tw, EasiestTable(h, t[0]), unseen)
    ensures EntryCompleted(t, tw, h, unseen, i)
  {
    var j, e := 2 + 3 * i, EasiestTable(h, t[0]);
    assert WordCompleted(t, tw, e, unseen, j) && WordCompleted(t, tw, e, unseen, j + 1);
    assert WordCompleted(t, tw, e, unseen, j + 2);
  }

  lemma EntriesCompleted(blob: seq<byte>, w: seq<byte>, h: seq<word>, t: seq<word>, tw: seq<word>, unseen: bool)
    requires StagedAs(blob, w) && |w| == HEADER_WINDOW && |blob| < HEADER_WINDOW && (unseen <==> |blob| <= 136)
    requires h == ReadWords(Completion(blob), 0, HEADER_WORDS) && t == ReadWords(Completion(blob), 128, IO_WORDS)
    requires tw == ReadWords(w, 128, IO_WORDS) && 1 <= t[0] < IO_MAX
    ensures forall i :: 0 <= i < IO_MAX ==> EntryCompleted(t, tw, h, unseen, i)
  {
    var e := EasiestTable(h, t[0]);
    forall j | 2 <= j < IO_WORDS
      ensures WordCompleted(t, tw, e, unseen, j)
    {
      TableWordCompleted(blob, w, j);
    }
    forall i | 0 <= i < IO_MAX
      ensures EntryCompleted(t, tw, h, unseen, i)
    {
      EntryOfWords(t, tw, h, unseen, i);
    }
  }

  /**
   A table all of whose entries are completed ones fits, if the one it was completed from does, or was not looked at.
   */
  lemma CompletedFits(h: seq<word>, t: seq<word>, tw: seq<word>, unseen: bool)
    requires |t| == |tw| == IO_WORDS && |h| == HEADER_WORDS && InBounds(FirstIn(h), h[6], h[15])
    requires InBounds(FirstOut(h), h[6], h[15])
    requires t[0] >= 1 && t[1] >= 1 && t[0] + t[1] <= IO_MAX
    requires forall i :: 0 <= i < IO_MAX ==> EntryCompleted(t, tw, h, unseen, i)
    requires !unseen ==> t[0] == tw[0] && t[1] == tw[1] && TableFits(h, tw)
    ensures TableFits(h, t)
  {
    assert EntryCompleted(t, tw, h, unseen, 0) && EntryCompleted(t, tw, h, unseen, t[0]);
    forall i | 0 <= i < t[0] + t[1]
      ensures InBounds(Entry(t, i), h[6], h[15])
    {
      assert EntryCompleted(t, tw, h, unseen, i);
      assert !unseen ==> InBounds(Entry(tw, i), h[6], h[15]);
    }
  }

  lemma TableCompleted(blob: seq<byte>, w: seq<byte>)
    requires StagedAs(blob, w) && |w| == HEADER_WINDOW && |blob| < HEADER_WINDOW
    requires HeaderFits(ReadWords(w, 0, HEADER_WORDS), |blob|)
    requires HeaderFits(ReadWords(Completion(blob), 0, HEADER_WORDS), |blob|)
    requires |blob| >= 64 ==> ReadWords(Completion(blob), 0, HEADER_WORDS) == ReadWords(w, 0, HEADER_WORDS)
    requires TableFits(ReadWords(w, 0, HEADER_WORDS), ReadWords(w, 4 * IO_WORD, IO_WORDS))
    ensures TableFits(ReadWords(Completion(blob), 0, HEADER_WORDS), ReadWords(Completion(blob), 4 * IO_WORD, IO_WORDS))
  {
    var c := Completion(blob);
    var h, t, tw := ReadWords(c, 0, HEADER_WORDS), ReadWords(c, 4 * IO_WORD, IO_WORDS), ReadWords(w, 4 * IO_WORD,
                              IO_WORDS);
    CountsCompleted(blob, w);
    EntriesCompleted(blob, w, h, t, tw, |blob| <= 136);
    CompletedFits(h, t, tw, |blob| <= 136);
  }

  /** If any staging makes the firmware accept a blob, the completion does. */
  lemma CompletionIsEasiest(blob: seq<byte>, w: seq<byte>)
    requires StagedAs(blob, w) && |w| == HEADER_WINDOW && |blob| < HEADER_WINDOW && Accepted(w, |blob|)
    ensures Accepted(Completion(blob), |blob|)
  {
    AcceptedInWords(w, |blob|);
    AcceptedInWords(Completion(blob), |blob|);
    HeaderCompleted(blob, w);
    if ReadWords(Completion(blob), 0, HEADER_WORDS)[1] == 4 {
      TableCompleted(blob, w);
    }
  }

  lemma OnlyTheWindowCounts(w: seq<byte>, total: word)
    requires |w| >= HEADER_WINDOW
    ensures Accepted(w[..HEADER_WINDOW], total) <==> Accepted(w, total)
  {
    ParseDependsOnHeader(w, w[..HEADER_WINDOW], HeaderBytes(ReadWords(w, 0, HEADER_WORDS)[1]));
  }

  lemma CompletionIsEasiestOfAll(blob: seq<byte>, w: seq<byte>)
    requires StagedAs(blob, w) && |blob| < HEADER_WINDOW && Accepted(w, |blob|)
    ensures Accepted(Completion(blob), |blob|)
  {
    OnlyTheWindowCounts(w, |blob|);
    CompletionIsEasiest(blob, w[..HEADER_WINDOW]);
  }

  /**
   When firmware and host can disagree about an uploaded blob: exactly when it is cut off inside its own header and the
   firmware accepts its completion. The host then refuses; in every other case, whatever staging held before, they
   agree.
   */
  lemma DisagreementIsExact(blob: seq<byte>)
    requires |blob| < U32
    ensures (exists w :: StagedAs(blob, w) && Accepted(w, |blob|) != HostAccepts(blob))
       <==> CutOff(blob) && Accepted(Completion(blob), |blob|)
  {
    if CutOff(blob) {
      HostRefusesCutOff(blob);
      forall w | StagedAs(blob, w) && Accepted(w, |blob|)
        ensures Accepted(Completion(blob), |blob|)
      {
        CompletionIsEasiestOfAll(blob, w);
      }
      assert StagedAs(blob, Completion(blob));
    } else {
      forall w | StagedAs(blob, w)
        ensures Accepted(w, |blob|) == HostAccepts(blob)
      {
        FirmwareAgreesWithHost(blob, w);
      }
    }
  }

  /** A blob whose version has no IO table is misjudged exactly when its knobs are cut off and its header words fit. */
  lemma CutOffKnobs(blob: seq<byte>, w: seq<byte>)
    requires StagedAs(blob, w) && 64 <= |blob| < U32 && ReadWords(blob, 0, HEADER_WORDS)[1] != 4
    ensures var h := ReadWords(blob, 0, HEADER_WORDS);
      Accepted(w, |blob|) != HostAccepts(blob) <==> |blob| < HeaderBytes(h[1]) && HeaderFits(h, |blob|)
  {
    AcceptedByHeader(blob, w);
    if |blob| >= HeaderBytes(ReadWords(blob, 0, HEADER_WORDS)[1]) {
      FirmwareAgreesWithHost(blob, w);
    }
  }

  /** For example sixteen header words of version 3 and nothing more. */
  function TruncatedExample(): (window: seq<byte>)
    ensures |window| == 256
  {
    Words([PMWL_MAGIC, 3, 64, 0, 64, 0, 0, 0, 0, 0, 0, 0, 0, 0, 0, 64]) + seq(192, _ => 0)
  }

  lemma TruncatedExampleAccepted()
    ensures StagedAs(TruncatedExample()[..64], TruncatedExample())
    ensures Accepted(TruncatedExample(), 64) && ParseHeader(TruncatedExample()[..64]).Err?
  {
    var ws: seq<word> := [PMWL_MAGIC, 3, 64, 0, 64, 0, 0, 0, 0, 0, 0, 0, 0, 0, 0, 64];
    var w := TruncatedExample();
    var blob := w[..64];
    assert blob == Words(ws);
    PrefixWords(w, Words(ws), 0, HEADER_WORDS);
    WordsFrom(ws, 0, HEADER_WORDS);
    assert ws[0..HEADER_WORDS] == ws;
    assert ReadWords(w, 0, HEADER_WORDS) == ws == ReadWords(blob, 0, HEADER_WORDS);
    HostRefusesCutOff(blob);
    assert ReadTable(w, ws) == Ok(([Tensor(0, 0, 0)], [Tensor(0, 0, 0)]));
  }
}
