/**
  The DMA sentinel guard of debug builds (maple_sentinel_setup and
  maple_sentinel_verify in maple_utils.c). Memory is one array of 32-bit words;
  a DMA buffer starts at word `base` and has `bufsize` bytes, a whole number of
  words. The guard regions are the 128 words (512 bytes) just before and just
  after the buffer.
*/
module MapleSentinel {

  /** The size of each guard region in words: 512 bytes, 512 / 4 words. */
  const GuardWords := 128

  /** The word maple_sentinel_verify expects in every guard slot. */
  const Sentinel: bv32 := 0xdeadbeef

  /** The word whose four bytes all equal b. */
  function ByteWord(b: bv8): bv32 {
    (b as bv32) * 0x0101_0101
  }

  /**
    memset converts its value to unsigned char, so filling with 0xdeadbeef
    stores the byte 0xef everywhere, and every filled word reads 0xefefefef.
  */
  const FillByte: bv8 := (Sentinel & 0xff) as bv8
  const FillWord: bv32 := ByteWord(FillByte)

  /**
    The memory the guard routines assume: a whole number of words in the
    buffer, and a full guard region on each side of it.
  */
  predicate GuardedLayout(memLength: nat, base: nat, words: nat) {
    && base >= GuardWords
    && base + words + GuardWords <= memLength
  }

  datatype Region = PreOffset | PostOffset

  /** One "BUFFER CHECK FAILURE" report: the region and the word offset within it. */
  datatype GuardFailure = GuardFailure(region: Region, offset: nat)

  /**
    The reports for the first n words of the guard region that starts at word
    `start`, in scan order (RegionFailuresSpec says which words are reported).
  */
  function RegionFailures(mem: seq<bv32>, start: nat, region: Region, n: nat): seq<GuardFailure>
    requires start + n <= |mem|
  {
    if n == 0 then []
    else
      RegionFailures(mem, start, region, n - 1)
      + (if mem[start + n - 1] == Sentinel then [] else [GuardFailure(region, n - 1)])
  }

  /**
    Everything maple_sentinel_verify reports: the region before the buffer,
    then the one after.
  */
  function GuardFailures(mem: seq<bv32>, base: nat, words: nat): seq<GuardFailure>
    requires GuardedLayout(|mem|, base, words)
  {
    RegionFailures(mem, base - GuardWords, PreOffset, GuardWords)
    + RegionFailures(mem, base + words, PostOffset, GuardWords)
  }

  /** With assertions enabled the first report aborts the program, so only it is seen. */
  function FirstOnly(fs: seq<GuardFailure>): seq<GuardFailure> {
    if fs == [] then [] else [fs[0]]
  }

  /** `mem` with the `len` words from word `start` set to w. */
  function Fill(mem: seq<bv32>, start: nat, len: nat, w: bv32): (r: seq<bv32>)
    requires start + len <= |mem|
    ensures |r| == |mem|
    ensures forall k | 0 <= k < |r| :: r[k] == if start <= k < start + len then w else mem[k]
  {
    seq(|mem|, k requires 0 <= k < |mem| => if start <= k < start + len then w else mem[k])
  }

  /**
    maple_sentinel_setup: memset the `bufsize` bytes of the buffer at word
    `base` with 0xdeadbeef, which stores 0xef in every byte.
  */
  method SentinelSetup(mem: array<bv32>, base: nat, bufsize: nat)
    requires bufsize % 4 == 0
    requires base + bufsize / 4 <= mem.Length
    modifies mem
    ensures mem[..] == Fill(old(mem[..]), base, bufsize / 4, FillWord)
  {
    forall k | base <= k < base + bufsize / 4 {
      mem[k] := FillWord;
    }
  }

  /**
    maple_sentinel_verify: scan the 128 words before the buffer, then the 128
    words after it, and report each word that is not the sentinel. With
    `abortOnFailure` (assertions compiled in) the first report ends the scan.
  */
  method SentinelVerify(mem: array<bv32>, base: nat, bufsize: nat, abortOnFailure: bool)
    returns (failures: seq<GuardFailure>)
    requires bufsize % 4 == 0 && GuardedLayout(mem.Length, base, bufsize / 4)
    ensures failures == if abortOnFailure then FirstOnly(GuardFailures(mem[..], base, bufsize / 4))
                        else GuardFailures(mem[..], base, bufsize / 4)
  {
    ghost var m := mem[..];
    var words := bufsize / 4;
    failures := [];
    var pre := base - GuardWords;
    var i := 0;
    while i < GuardWords
      invariant 0 <= i <= GuardWords
      invariant failures == RegionFailures(m, pre, PreOffset, i)
      invariant abortOnFailure ==> failures == []
    {
      if mem[pre + i] != Sentinel {
        failures := failures + [GuardFailure(PreOffset, i)];
        if abortOnFailure {
          FirstPreFailure(m, base, words, i);
          return;
        }
      }
      i := i + 1;
    }
    var post := base + words;
    i := 0;
    while i < GuardWords
      invariant 0 <= i <= GuardWords
      invariant failures == RegionFailures(m, pre, PreOffset, GuardWords) + RegionFailures(m, post, PostOffset, i)
      invariant abortOnFailure ==> failures == []
    {
      if mem[post + i] != Sentinel {
        failures := failures + [GuardFailure(PostOffset, i)];
        if abortOnFailure {
          FirstPostFailure(m, base, words, i);
          return;
        }
      }
      i := i + 1;
    }
    assert failures == GuardFailures(m, base, words);
  }

  /** A failing pre-region word with none before it is the first report. */
  lemma {:induction false} FirstPreFailure(mem: seq<bv32>, base: nat, words: nat, i: nat)
    requires GuardedLayout(|mem|, base, words) && i < GuardWords
    requires RegionFailures(mem, base - GuardWords, PreOffset, i) == []
    requires mem[base - GuardWords + i] != Sentinel
    ensures FirstOnly(GuardFailures(mem, base, words)) == [GuardFailure(PreOffset, i)]
  {
    var pre := base - GuardWords;
    FirstRegionFailure(mem, pre, PreOffset, i, GuardWords);
    FirstOnlyOfPrefix([GuardFailure(PreOffset, i)], RegionFailures(mem, pre, PreOffset, GuardWords),
      RegionFailures(mem, base + words, PostOffset, GuardWords));
  }

  /** The first word of a region that lost the sentinel gives the region's first report. */
  lemma {:induction false} FirstRegionFailure(mem: seq<bv32>, start: nat, region: Region, i: nat, n: nat)
    requires i < n && start + n <= |mem|
    requires RegionFailures(mem, start, region, i) == []
    requires mem[start + i] != Sentinel
    ensures [GuardFailure(region, i)] <= RegionFailures(mem, start, region, n)
  {
    var one := [GuardFailure(region, i)];
    assert RegionFailures(mem, start, region, i + 1) == RegionFailures(mem, start, region, i) + one;
    assert [] + one == one;
    RegionFailuresPrefix(mem, start, region, i + 1, n);
  }

  /** The first report of a list that extends a one-report prefix is that report. */
  lemma {:induction false} FirstOnlyOfPrefix(head: seq<GuardFailure>, whole: seq<GuardFailure>, rest: seq<GuardFailure>)
    requires |head| == 1 && head <= whole
    ensures FirstOnly(whole + rest) == head
  {
    assert (whole + rest)[0] == whole[0] == head[0];
  }

  /** After a region without reports, the first report is that of the next region. */
  lemma {:induction false} FirstOnlyAfterNone(none: seq<GuardFailure>, head: seq<GuardFailure>, whole: seq<GuardFailure>)
    requires none == [] && |head| == 1 && head <= whole
    ensures FirstOnly(none + whole) == head
  {
    assert (none + whole)[0] == whole[0] == head[0];
  }

  /** A failing post-region word with no report before it is the first report. */
  lemma {:induction false} FirstPostFailure(mem: seq<bv32>, base: nat, words: nat, i: nat)
    requires GuardedLayout(|mem|, base, words) && i < GuardWords
    requires RegionFailures(mem, base - GuardWords, PreOffset, GuardWords) == []
    requires RegionFailures(mem, base + words, PostOffset, i) == []
    requires mem[base + words + i] != Sentinel
    ensures FirstOnly(GuardFailures(mem, base, words)) == [GuardFailure(PostOffset, i)]
  {
    var post := base + words;
    FirstRegionFailure(mem, post, PostOffset, i, GuardWords);
    FirstOnlyAfterNone(RegionFailures(mem, base - GuardWords, PreOffset, GuardWords),
      [GuardFailure(PostOffset, i)], RegionFailures(mem, post, PostOffset, GuardWords));
  }

  /** The reports for a shorter scan are a prefix of those for a longer one. */
  lemma {:induction false} RegionFailuresPrefix(mem: seq<bv32>, start: nat, region: Region, m: nat, n: nat)
    requires m <= n && start + n <= |mem|
    ensures RegionFailures(mem, start, region, m) <= RegionFailures(mem, start, region, n)
    decreases n - m
  {
    if m < n {
      RegionFailuresPrefix(mem, start, region, m, n - 1);
    }
  }

  /** A report is issued for exactly the words of the region that lost the sentinel, in increasing order. */
  lemma {:induction false} RegionFailuresSpec(mem: seq<bv32>, start: nat, region: Region, n: nat)
    requires start + n <= |mem|
    ensures forall f :: f in RegionFailures(mem, start, region, n) <==>
      f.region == region && f.offset < n && mem[start + f.offset] != Sentinel
    ensures forall j, k | 0 <= j < k < |RegionFailures(mem, start, region, n)| ::
      RegionFailures(mem, start, region, n)[j].offset < RegionFailures(mem, start, region, n)[k].offset
  {
    if n > 0 {
      RegionFailuresSpec(mem, start, region, n - 1);
    }
  }

  /**
    maple_sentinel_verify reports every corrupted guard word and nothing else,
    all pre-offset reports before any post-offset report.
  */
  lemma {:induction false} GuardFailuresSpec(mem: seq<bv32>, base: nat, words: nat)
    requires GuardedLayout(|mem|, base, words)
    ensures forall f :: f in GuardFailures(mem, base, words) <==>
      || (f.region == PreOffset && f.offset < GuardWords && mem[base - GuardWords + f.offset] != Sentinel)
      || (f.region == PostOffset && f.offset < GuardWords && mem[base + words + f.offset] != Sentinel)
    ensures forall j, k | 0 <= j < k < |GuardFailures(mem, base, words)| ::
      GuardFailures(mem, base, words)[j].region == PostOffset ==> GuardFailures(mem, base, words)[k].region == PostOffset
  {
    TwoRegionsSpec(mem, base - GuardWords, base + words, GuardWords);
  }

  /** The reports of two scanned regions, one after the other. */
  lemma {:induction false} TwoRegionsSpec(mem: seq<bv32>, pre: nat, post: nat, n: nat)
    requires pre + n <= |mem| && post + n <= |mem|
    ensures forall f :: f in RegionFailures(mem, pre, PreOffset, n) + RegionFailures(mem, post, PostOffset, n) <==>
      || (f.region == PreOffset && f.offset < n && mem[pre + f.offset] != Sentinel)
      || (f.region == PostOffset && f.offset < n && mem[post + f.offset] != Sentinel)
    ensures forall j, k | 0 <= j < k < |RegionFailures(mem, pre, PreOffset, n) + RegionFailures(mem, post, PostOffset, n)| ::
      (RegionFailures(mem, pre, PreOffset, n) + RegionFailures(mem, post, PostOffset, n))[j].region == PostOffset ==>
      (RegionFailures(mem, pre, PreOffset, n) + RegionFailures(mem, post, PostOffset, n))[k].region == PostOffset
  {
    RegionFailuresSpec(mem, pre, PreOffset, n);
    RegionFailuresSpec(mem, post, PostOffset, n);
    ConcatRegionsOrdered(RegionFailures(mem, pre, PreOffset, n), RegionFailures(mem, post, PostOffset, n));
  }

  /** In pre + post, where pre holds only pre-offset reports and post only post-offset ones, regions do not interleave. */
  lemma {:induction false} ConcatRegionsOrdered(pre: seq<GuardFailure>, post: seq<GuardFailure>)
    requires forall f | f in pre :: f.region == PreOffset
    requires forall f | f in post :: f.region == PostOffset
    ensures forall j, k | 0 <= j < k < |pre + post| :: (pre + post)[j].region == PostOffset ==> (pre + post)[k].region == PostOffset
  {
    var all := pre + post;
    forall j, k | 0 <= j < k < |all| && all[j].region == PostOffset
      ensures all[k].region == PostOffset
    {
      if j >= |pre| {
        assert all[k] == post[k - |pre|] && post[k - |pre|] in post;
      }
    }
  }

  /** Two memories with the same words in a region get the same reports for it. */
  lemma {:induction false} RegionFailuresFrame(mem: seq<bv32>, mem': seq<bv32>, start: nat, region: Region, n: nat)
    requires start + n <= |mem| && start + n <= |mem'|
    requires forall k | start <= k < start + n :: mem[k] == mem'[k]
    ensures RegionFailures(mem, start, region, n) == RegionFailures(mem', start, region, n)
  {
    if n > 0 {
      RegionFailuresFrame(mem, mem', start, region, n - 1);
    }
  }

  /** Setting up the buffer itself never changes what verify reports about its guards. */
  lemma {:induction false} SetupKeepsVerdict(mem: seq<bv32>, base: nat, words: nat, w: bv32)
    requires GuardedLayout(|mem|, base, words)
    ensures GuardFailures(Fill(mem, base, words, w), base, words) == GuardFailures(mem, base, words)
  {
    FillOutsideRegion(mem, base, words, w, base - GuardWords, PreOffset, GuardWords);
    FillOutsideRegion(mem, base, words, w, base + words, PostOffset, GuardWords);
  }

  /** Filling words that lie outside a region leaves its reports as they were. */
  lemma {:induction false} FillOutsideRegion(mem: seq<bv32>, s: nat, len: nat, w: bv32, start: nat, region: Region, n: nat)
    requires s + len <= |mem| && start + n <= |mem|
    requires start + n <= s || s + len <= start
    ensures RegionFailures(Fill(mem, s, len, w), start, region, n) == RegionFailures(mem, start, region, n)
  {
    RegionFailuresFrame(mem, Fill(mem, s, len, w), start, region, n);
  }

  /** Filling a whole region with w leaves it intact if w is the sentinel and corrupts every word otherwise. */
  lemma {:induction false} FillCoversRegion(mem: seq<bv32>, s: nat, len: nat, w: bv32, start: nat, region: Region, n: nat)
    requires s <= start && start + n <= s + len && s + len <= |mem|
    ensures w == Sentinel ==> RegionFailures(Fill(mem, s, len, w), start, region, n) == []
    ensures w != Sentinel ==> |RegionFailures(Fill(mem, s, len, w), start, region, n)| == n
  {
    if w == Sentinel {
      RegionAllIntact(Fill(mem, s, len, w), start, region, n);
    } else {
      RegionAllCorrupted(Fill(mem, s, len, w), start, region, n);
    }
  }

  /** A region in which every word differs from the sentinel gets one report per word. */
  lemma {:induction false} RegionAllCorrupted(mem: seq<bv32>, start: nat, region: Region, n: nat)
    requires start + n <= |mem|
    requires forall w | start <= w < start + n :: mem[w] != Sentinel
    ensures |RegionFailures(mem, start, region, n)| == n
  {
    if n > 0 {
      RegionAllCorrupted(mem, start, region, n - 1);
    }
  }

  /** A region in which every word holds the sentinel gets no report. */
  lemma {:induction false} RegionAllIntact(mem: seq<bv32>, start: nat, region: Region, n: nat)
    requires start + n <= |mem|
    requires forall w | start <= w < start + n :: mem[w] == Sentinel
    ensures RegionFailures(mem, start, region, n) == []
  {
    if n > 0 {
      RegionAllIntact(mem, start, region, n - 1);
    }
  }

  /**
    Filling the buffer together with both guard regions through the source's
    setup routine leaves 0xefefefef in every guard word, so verify reports all
    256 guard words although nothing else wrote to them.
  */
  lemma {:induction false} PaintedGuardsAllFail(mem: seq<bv32>, base: nat, words: nat)
    requires GuardedLayout(|mem|, base, words)
    ensures |GuardFailures(Fill(mem, base - GuardWords, words + 2 * GuardWords, FillWord), base, words)|
            == 2 * GuardWords
  {
    assert FillWord == 0xefefefef != Sentinel;
    var pre, post := base - GuardWords, base + words;
    var len := words + 2 * GuardWords;
    FillCoversRegion(mem, pre, len, FillWord, pre, PreOffset, GuardWords);
    FillCoversRegion(mem, pre, len, FillWord, post, PostOffset, GuardWords);
  }

  /** Setup as intended: store the 32-bit sentinel itself in every word, which a byte memset cannot do. */
  method SentinelSetupWords(mem: array<bv32>, base: nat, bufsize: nat)
    requires bufsize % 4 == 0
    requires base + bufsize / 4 <= mem.Length
    modifies mem
    ensures mem[..] == Fill(old(mem[..]), base, bufsize / 4, Sentinel)
  {
    forall k | base <= k < base + bufsize / 4 {
      mem[k] := Sentinel;
    }
  }

  /** With the intended setup over buffer and guards, verify reports nothing. */
  lemma {:induction false} PatternedGuardsPass(mem: seq<bv32>, base: nat, words: nat)
    requires GuardedLayout(|mem|, base, words)
    ensures GuardFailures(Fill(mem, base - GuardWords, words + 2 * GuardWords, Sentinel), base, words) == []
  {
    var pre, post := base - GuardWords, base + words;
    var len := words + 2 * GuardWords;
    FillCoversRegion(mem, pre, len, Sentinel, pre, PreOffset, GuardWords);
    FillCoversRegion(mem, pre, len, Sentinel, post, PostOffset, GuardWords);
  }
}
