/** The minidump walker: memory ranges of a Memory64List, address lookups, and the scan of
    the crashing thread's stack for return addresses. */
module StackDump {
  import opened Machine
  import opened Options

  type Bytes = seq<u8>

  /** Address range and where its bytes are in the file. */
  datatype Range = Range(start: nat, size: nat, off: nat)

  /** Start address and size, as a Memory64List lists them. */
  datatype Desc = Desc(start: nat, size: nat)

  /** struct.unpack_from of one unsigned field; it raises when the data ends before it. */
  function Unpack(data: Bytes, off: nat, k: nat): Option<nat> {
    if off + k <= |data| then Some(LittleEndian(data[off..off + k])) else None
  }

  // ---------------------------------------------------------------- building the ranges

  /** Ranges stored one after another from `base` on. */
  function Layout(descs: seq<Desc>, base: nat): seq<Range> {
    if descs == [] then []
    else [Range(descs[0].start, descs[0].size, base)] + Layout(descs[1..], base + descs[0].size)
  }

  /** The ranges of n descriptors listed in the file from `at` on, if all are there. */
  function RangesAt(data: Bytes, at: nat, n: nat, base: nat): Option<seq<Range>>
    decreases n
  {
    if n == 0 then Some([])
    else
      match (Unpack(data, at, 8), Unpack(data, at + 8, 8))
      case (Some(start), Some(size)) =>
        (match RangesAt(data, at + 16, n - 1, base + size)
         case Some(rest) => Some([Range(start, size, base)] + rest)
         case None => None)
      case _ => None
  }

  /** The ranges a Memory64List at `rva` describes; nothing where Python raises. */
  function Memory64Ranges(data: Bytes, rva: nat): Option<seq<Range>> {
    match (Unpack(data, rva, 8), Unpack(data, rva + 8, 8))
    case (Some(n), Some(base)) => RangesAt(data, rva + 16, n, base)
    case _ => None
  }

  /** The ranges of all Memory64List streams, in the order of the directory. */
  function AllMemory64Ranges(data: Bytes, rvas: seq<nat>): Option<seq<Range>> {
    if rvas == [] then Some([])
    else
      var n := |rvas| - 1;
      match (AllMemory64Ranges(data, rvas[..n]), Memory64Ranges(data, rvas[n]))
      case (Some(before), Some(ranges)) => Some(before + ranges)
      case _ => None
  }

  lemma {:induction false} OneFails(data: Bytes, rvas: seq<nat>, i: nat)
    requires i < |rvas| && Memory64Ranges(data, rvas[i]).None?
    ensures AllMemory64Ranges(data, rvas).None?
  {
    var n := |rvas| - 1;
    if i < n {
      OneFails(data, rvas[..n], i);
    }
  }

  lemma OnlyOne(data: Bytes, rva: nat)
    ensures AllMemory64Ranges(data, [rva]) == Memory64Ranges(data, rva)
  {
    assert [rva][..0] == [];
    var one := Memory64Ranges(data, rva);
    assert one.Some? ==> [] + one.value == one.value;
  }

  /** The Memory64List branch of `parse`, over every such stream of the dump. */
  method ReadMemory64Lists(data: Bytes, rvas: seq<nat>) returns (ok: bool, ranges: seq<Range>)
    ensures ok <==> AllMemory64Ranges(data, rvas).Some?
    ensures ok ==> ranges == AllMemory64Ranges(data, rvas).value
  {
    ranges := [];
    for i := 0 to |rvas|
      invariant AllMemory64Ranges(data, rvas[..i]) == Some(ranges)
    {
      var more: seq<Range>;
      ok, more := ReadMemory64List(data, rvas[i]);
      if !ok {
        OneFails(data, rvas, i);
        return;
      }
      assert rvas[..i + 1][..i] == rvas[..i];
      ranges := ranges + more;
    }
    assert rvas[..|rvas|] == rvas;
    ok := true;
  }

  /** One such stream. */
  method ReadMemory64List(data: Bytes, rva: nat) returns (ok: bool, ranges: seq<Range>)
    ensures ok <==> Memory64Ranges(data, rva).Some?
    ensures ok ==> ranges == Memory64Ranges(data, rva).value
  {
    ok, ranges := false, [];
    var n, base := Unpack(data, rva, 8), Unpack(data, rva + 8, 8);
    if n.None? || base.None? {
      return;
    }
    var offInFile := base.value;
    var i := 0;
    ghost var all := RangesAt(data, rva + 16, n.value, base.value);
    assert all.Some? ==> [] + all.value == all.value;
    while i < n.value
      invariant i <= n.value
      invariant Continues(all, ranges, RangesAt(data, rva + 16 + i * 16, n.value - i, offInFile))
    {
      var at := rva + 16 + i * 16;
      var start, size := Unpack(data, at, 8), Unpack(data, at + 8, 8);
      if start.None? || size.None? {
        return;
      }
      ContinuesStep(all, ranges, Range(start.value, size.value, offInFile),
                    RangesAt(data, at + 16, n.value - i - 1, offInFile + size.value));
      ranges := ranges + [Range(start.value, size.value, offInFile)];
      offInFile := offInFile + size.value;
      i := i + 1;
      assert at + 16 == rva + 16 + i * 16;
    }
    ok := true;
  }

  /** What was to be read is what has been read and what is still there. */
  ghost predicate Continues(all: Option<seq<Range>>, read: seq<Range>, rest: Option<seq<Range>>) {
    all == if rest.Some? then Some(read + rest.value) else None
  }

  lemma ContinuesStep(all: Option<seq<Range>>, read: seq<Range>, r: Range, rest: Option<seq<Range>>)
    requires Continues(all, read, if rest.Some? then Some([r] + rest.value) else None)
    ensures Continues(all, read + [r], rest)
  {
    if rest.Some? {
      assert read + ([r] + rest.value) == read + [r] + rest.value;
    }
  }

  // ---------------------------------------------------------------- reading memory

  predicate Covers(r: Range, addr: nat, size: nat) {
    r.start <= addr && addr + size <= r.start + r.size
  }

  /** Python slices are cut at the end of the data. */
  function Slice(data: Bytes, from: nat, to: nat): Bytes {
    if from >= |data| || from >= to then [] else if to <= |data| then data[from..to] else data[from..]
  }

  function ReadMem(data: Bytes, ranges: seq<Range>, addr: nat, size: nat): Option<Bytes> {
    if ranges == [] then None
    else if Covers(ranges[0], addr, size) then
      var off := ranges[0].off + (addr - ranges[0].start);
      Some(Slice(data, off, off + size))
    else ReadMem(data, ranges[1..], addr, size)
  }

  /** A read whose stored bytes run past the end of the file gives those that are there. */
  lemma SliceIsCut(data: Bytes, from: nat, to: nat)
    ensures var s := Slice(data, from, to);
      && |s| == (if to <= from || |data| <= from then 0 else if to <= |data| then to - from else |data| - from)
      && forall i :: 0 <= i < |s| ==> s[i] == data[from + i]
  {
  }

  function ImageBytes(image: nat -> u8, addr: nat, size: nat): (s: Bytes)
    ensures |s| == size
  {
    seq(size, k requires 0 <= k < size => image(addr + k))
  }

  /** From `base` on, the file holds the listed ranges of the image one after another. */
  ghost predicate Stores(data: Bytes, descs: seq<Desc>, base: nat, image: nat -> u8) {
    descs != [] ==>
      && base + descs[0].size <= |data|
      && data[base..base + descs[0].size] == ImageBytes(image, descs[0].start, descs[0].size)
      && Stores(data, descs[1..], base + descs[0].size, image)
  }

  ghost predicate Covered(descs: seq<Desc>, addr: nat, size: nat) {
    exists d :: d in descs && d.start <= addr && addr + size <= d.start + d.size
  }

  lemma StoredByte(data: Bytes, r: Range, image: nat -> u8, i: nat)
    requires i < r.size && r.off + r.size <= |data|
    requires data[r.off..r.off + r.size] == ImageBytes(image, r.start, r.size)
    ensures data[r.off + i] == image(r.start + i)
  {
    assert data[r.off..r.off + r.size][i] == data[r.off + i];
  }

  lemma SliceIsImage(data: Bytes, r: Range, image: nat -> u8, addr: nat, size: nat)
    requires Covers(r, addr, size) && r.off + r.size <= |data|
    requires data[r.off..r.off + r.size] == ImageBytes(image, r.start, r.size)
    ensures Slice(data, r.off + (addr - r.start), r.off + (addr - r.start) + size) == ImageBytes(image, addr, size)
  {
    var from := r.off + (addr - r.start);
    SliceIsCut(data, from, from + size);
    var got := Slice(data, from, from + size);
    forall i | 0 <= i < size ensures got[i] == image(addr + i) {
      StoredByte(data, r, image, addr - r.start + i);
    }
  }

  /** In a file that stores the listed ranges of a memory image one after another from `base`
      on, a read gives exactly the image's bytes when one range covers the request, and
      nothing when none does. */
  lemma {:induction false} ReadMemIsImage(data: Bytes, descs: seq<Desc>, base: nat, image: nat -> u8, addr: nat, size: nat)
    requires Stores(data, descs, base, image)
    ensures ReadMem(data, Layout(descs, base), addr, size) ==
      if Covered(descs, addr, size) then Some(ImageBytes(image, addr, size)) else None
    decreases |descs|
  {
    if descs != [] {
      var ranges := Layout(descs, base);
      assert ranges[1..] == Layout(descs[1..], base + descs[0].size);
      if Covers(ranges[0], addr, size) {
        SliceIsImage(data, ranges[0], image, addr, size);
        assert descs[0] in descs;
      } else {
        ReadMemIsImage(data, descs[1..], base + descs[0].size, image, addr, size);
        assert forall d :: d in descs <==> d == descs[0] || d in descs[1..];
      }
    }
  }

  // ---------------------------------------------------------------- writing the list

  function LE8(v: nat): (s: Bytes)
    requires v < B64
    ensures |s| == 8
  {
    LE4(v % B32) + LE4(v / B32)
  }

  lemma LE8Back(v: nat)
    requires v < B64
    ensures LittleEndian(LE8(v)) == v
  {
    var s := LE8(v);
    LE4Back(v % B32);
    LE4Back(v / B32);
    LittleEndianAppend(LE4(v % B32), LE4(v / B32));
    assert v == v % B32 + B32 * (v / B32);
  }

  function EncodeDescs(descs: seq<Desc>): (s: Bytes)
    requires forall d :: d in descs ==> d.start < B64 && d.size < B64
    ensures |s| == 16 * |descs|
  {
    if descs == [] then [] else LE8(descs[0].start) + LE8(descs[0].size) + EncodeDescs(descs[1..])
  }

  lemma DescBack(data: Bytes, at: nat, d: Desc)
    requires d.start < B64 && d.size < B64
    requires at + 16 <= |data| && data[at..at + 16] == LE8(d.start) + LE8(d.size)
    ensures Unpack(data, at, 8) == Some(d.start) && Unpack(data, at + 8, 8) == Some(d.size)
  {
    var s := data[at..at + 16];
    assert data[at..at + 8] == s[..8] == LE8(d.start);
    assert data[at + 8..at + 8 + 8] == s[8..16] == LE8(d.size);
    LE8Back(d.start);
    LE8Back(d.size);
  }

  /** A descriptor list written little-endian is read back as ranges stored one after another. */
  lemma {:induction false} RangesBack(data: Bytes, at: nat, descs: seq<Desc>, base: nat)
    requires forall d :: d in descs ==> d.start < B64 && d.size < B64
    requires at + 16 * |descs| <= |data| && data[at..at + 16 * |descs|] == EncodeDescs(descs)
    ensures RangesAt(data, at, |descs|, base) == Some(Layout(descs, base))
    decreases |descs|
  {
    if descs != [] {
      var s := data[at..at + 16 * |descs|];
      var head, rest := LE8(descs[0].start) + LE8(descs[0].size), EncodeDescs(descs[1..]);
      assert data[at..at + 16] == s[..16] == head;
      assert data[at + 16..at + 16 + 16 * |descs[1..]|] == s[16..] == rest;
      DescBack(data, at, descs[0]);
      RangesBack(data, at + 16, descs[1..], base + descs[0].size);
    }
  }

  /** The Memory64List at `rva` lists `descs` and the base offset. */
  ghost predicate Lists(data: Bytes, rva: nat, descs: seq<Desc>, base: nat) {
    && (forall d :: d in descs ==> d.start < B64 && d.size < B64)
    && Unpack(data, rva, 8) == Some(|descs|)
    && Unpack(data, rva + 8, 8) == Some(base)
    && rva + 16 + 16 * |descs| <= |data|
    && data[rva + 16..rva + 16 + 16 * |descs|] == EncodeDescs(descs)
  }

  /** From the file's bytes alone: when its Memory64List lists `descs` and their contents are
      stored from the base offset on, every read answers from the memory image. */
  lemma DumpReadsImage(data: Bytes, rva: nat, descs: seq<Desc>, base: nat, image: nat -> u8, addr: nat, size: nat)
    requires Lists(data, rva, descs, base) && Stores(data, descs, base, image)
    ensures Memory64Ranges(data, rva).Some?
    ensures ReadMem(data, Memory64Ranges(data, rva).value, addr, size) ==
      if Covered(descs, addr, size) then Some(ImageBytes(image, addr, size)) else None
  {
    RangesBack(data, rva + 16, descs, base);
    ReadMemIsImage(data, descs, base, image, addr, size);
  }

  // ---------------------------------------------------------------- modules and the stack scan

  datatype Module = Module(base: nat, size: nat, name: string)

  function ModuleFor(mods: seq<Module>, addr: nat): Option<(string, nat)> {
    if mods == [] then None
    else if mods[0].base <= addr < mods[0].base + mods[0].size then Some((mods[0].name, addr - mods[0].base))
    else ModuleFor(mods[1..], addr)
  }

  /** Module k is the first to contain the address. */
  ghost predicate Owner(mods: seq<Module>, k: nat, addr: nat) {
    && k < |mods| && mods[k].base <= addr < mods[k].base + mods[k].size
    && forall j :: 0 <= j < k ==> !(mods[j].base <= addr < mods[j].base + mods[j].size)
  }

  /** A lookup gives name and offset of the first module that contains the address. */
  lemma {:induction false} ModuleForOwner(mods: seq<Module>, addr: nat, k: nat)
    requires Owner(mods, k, addr)
    ensures ModuleFor(mods, addr) == Some((mods[k].name, addr - mods[k].base))
    decreases k
  {
    if k > 0 {
      assert !(mods[0].base <= addr < mods[0].base + mods[0].size);
      forall j | 0 <= j < k - 1
        ensures !(mods[1..][j].base <= addr < mods[1..][j].base + mods[1..][j].size)
      {
        assert mods[1..][j] == mods[j + 1];
      }
      ModuleForOwner(mods[1..], addr, k - 1);
    }
  }

  /** It gives something exactly when there is one. */
  lemma {:induction false} OwnerOf(mods: seq<Module>, addr: nat) returns (k: nat)
    ensures ModuleFor(mods, addr).Some? ==> Owner(mods, k, addr)
    ensures ModuleFor(mods, addr).None? <==>
      forall j :: 0 <= j < |mods| ==> !(mods[j].base <= addr < mods[j].base + mods[j].size)
  {
    k := 0;
    if mods != [] && !(mods[0].base <= addr < mods[0].base + mods[0].size) {
      var i := OwnerOf(mods[1..], addr);
      k := i + 1;
      assert forall j :: 0 < j < |mods| ==> mods[j] == mods[1..][j - 1];
    }
  }

  /** What a lookup finds, both ways. */
  lemma ModuleForExactly(mods: seq<Module>, addr: nat, name: string, off: nat)
    ensures ModuleFor(mods, addr) == Some((name, off)) <==>
      exists k: nat :: Owner(mods, k, addr) && name == mods[k].name && off == addr - mods[k].base
    ensures ModuleFor(mods, addr) == None <==>
      forall j :: 0 <= j < |mods| ==> !(mods[j].base <= addr < mods[j].base + mods[j].size)
  {
    var k := OwnerOf(mods, addr);
    if ModuleFor(mods, addr).Some? {
      ModuleForOwner(mods, addr, k);
    }
    forall i: nat | Owner(mods, i, addr) ensures ModuleFor(mods, addr) == Some((mods[i].name, addr - mods[i].base)) {
      ModuleForOwner(mods, addr, i);
    }
  }

  datatype Hit = Hit(at: nat, addr: nat, name: string, off: nat)

  function StackWord(stack: Bytes, i: nat): (w: nat)
    requires 4 * i + 4 <= |stack|
    ensures w == stack[4 * i] as nat + 0x100 * stack[4 * i + 1] as nat +
                 0x1_0000 * stack[4 * i + 2] as nat + 0x100_0000 * stack[4 * i + 3] as nat
  {
    FourLittle(stack[4 * i..4 * i + 4]);
    LittleEndian(stack[4 * i..4 * i + 4])
  }

  /** The word lies in a named module, past its first byte. */
  predicate Candidate(mods: seq<Module>, addr: nat) {
    var m := ModuleFor(mods, addr);
    m.Some? && m.value.0 != "" && m.value.1 != 0
  }

  predicate FirstSeen(stack: Bytes, i: nat)
    requires 4 * i + 4 <= |stack|
  {
    forall j :: 0 <= j < i ==> StackWord(stack, j) != StackWord(stack, i)
  }

  function HitAt(stack: Bytes, mods: seq<Module>, i: nat): Hit
    requires 4 * i + 4 <= |stack| && Candidate(mods, StackWord(stack, i))
  {
    var m := ModuleFor(mods, StackWord(stack, i)).value;
    Hit(4 * i, StackWord(stack, i), m.0, m.1)
  }

  /** The first occurrences among the first n words, in stack order. */
  function FirstHits(stack: Bytes, mods: seq<Module>, n: nat): seq<Hit>
    requires 4 * n <= |stack|
  {
    if n == 0 then []
    else
      FirstHits(stack, mods, n - 1) +
      if Candidate(mods, StackWord(stack, n - 1)) && FirstSeen(stack, n - 1) then [HitAt(stack, mods, n - 1)] else []
  }

  /** What the scan remembers of the first n words: address and module name. */
  function Remembered(stack: Bytes, mods: seq<Module>, n: nat): set<(nat, string)>
    requires 4 * n <= |stack|
  {
    if n == 0 then {}
    else
      Remembered(stack, mods, n - 1) +
      if Candidate(mods, StackWord(stack, n - 1)) then {Key(mods, StackWord(stack, n - 1))} else {}
  }

  function Key(mods: seq<Module>, addr: nat): (nat, string)
    requires Candidate(mods, addr)
  {
    (addr, ModuleFor(mods, addr).value.0)
  }

  lemma {:induction false} RememberedWords(stack: Bytes, mods: seq<Module>, n: nat, addr: nat)
    requires 4 * n <= |stack| && Candidate(mods, addr)
    ensures Key(mods, addr) in Remembered(stack, mods, n) <==> exists j :: 0 <= j < n && StackWord(stack, j) == addr
  {
    if n > 0 {
      RememberedWords(stack, mods, n - 1, addr);
    }
  }

  method ScanStack(stack: Bytes, mods: seq<Module>) returns (out: seq<Hit>)
    ensures out == FirstHits(stack, mods, |stack| / 4)
  {
    out := [];
    var seen: set<(nat, string)> := {};
    var i := 0;
    while i < |stack| / 4
      invariant i <= |stack| / 4
      invariant out == FirstHits(stack, mods, i)
      invariant seen == Remembered(stack, mods, i)
    {
      var addr := StackWord(stack, i);
      var m := ModuleFor(mods, addr);
      if m.Some? && m.value.0 != "" && m.value.1 != 0 {
        RememberedWords(stack, mods, i, addr);
      }
      if m.Some? && m.value.0 != "" && m.value.1 != 0 && (addr, m.value.0) !in seen {
        seen := seen + {(addr, m.value.0)};
        out := out + [Hit(4 * i, addr, m.value.0, m.value.1)];
      }
      i := i + 1;
    }
  }

  /** Word i of the stack points past the first byte of the named module k. */
  ghost predicate PointsInto(stack: Bytes, mods: seq<Module>, i: nat, k: nat) {
    && i < |stack| / 4 && Owner(mods, k, StackWord(stack, i))
    && mods[k].name != "" && StackWord(stack, i) != mods[k].base
  }

  /** The hit reports the first occurrence of such a word: where it stands, the word, the
      module's name and the distance from the module's base. */
  ghost predicate Reported(stack: Bytes, mods: seq<Module>, h: Hit, i: nat, k: nat) {
    && PointsInto(stack, mods, i, k) && FirstSeen(stack, i)
    && h == Hit(4 * i, StackWord(stack, i), mods[k].name, StackWord(stack, i) - mods[k].base)
  }

  ghost predicate Genuine(stack: Bytes, mods: seq<Module>, h: Hit) {
    exists i: nat, k: nat :: Reported(stack, mods, h, i, k)
  }

  lemma CandidateOwner(mods: seq<Module>, addr: nat) returns (k: nat)
    requires Candidate(mods, addr)
    ensures Owner(mods, k, addr) && mods[k].name != "" && addr != mods[k].base
    ensures ModuleFor(mods, addr) == Some((mods[k].name, addr - mods[k].base))
  {
    k := OwnerOf(mods, addr);
    ModuleForOwner(mods, addr, k);
  }

  ghost predicate InOrder(stack: Bytes, mods: seq<Module>, out: seq<Hit>, n: nat) {
    && (forall k :: 0 <= k < |out| ==> Genuine(stack, mods, out[k]) && out[k].at < 4 * n)
    && (forall k, l :: 0 <= k < l < |out| ==> out[k].at < out[l].at)
  }

  lemma AddHit(stack: Bytes, mods: seq<Module>, out: seq<Hit>, n: nat)
    requires InOrder(stack, mods, out, n) && 4 * n + 4 <= |stack|
    requires Candidate(mods, StackWord(stack, n)) && FirstSeen(stack, n)
    ensures InOrder(stack, mods, out + [HitAt(stack, mods, n)], n + 1)
  {
    var k := CandidateOwner(mods, StackWord(stack, n));
    assert Reported(stack, mods, HitAt(stack, mods, n), n, k);
    assert Genuine(stack, mods, HitAt(stack, mods, n));
  }

  lemma SkipWord(stack: Bytes, mods: seq<Module>, out: seq<Hit>, n: nat)
    requires InOrder(stack, mods, out, n)
    ensures InOrder(stack, mods, out, n + 1)
  {
  }

  lemma NextWord(stack: Bytes, mods: seq<Module>, before: seq<Hit>, after: seq<Hit>, n: nat)
    requires 0 < n && 4 * n <= |stack| && InOrder(stack, mods, before, n - 1)
    requires after == before + if Candidate(mods, StackWord(stack, n - 1)) && FirstSeen(stack, n - 1)
                               then [HitAt(stack, mods, n - 1)] else []
    ensures InOrder(stack, mods, after, n)
  {
    if Candidate(mods, StackWord(stack, n - 1)) && FirstSeen(stack, n - 1) {
      AddHit(stack, mods, before, n - 1);
    } else {
      assert after == before;
      SkipWord(stack, mods, before, n - 1);
    }
  }

  lemma {:induction false} HitsInOrder(stack: Bytes, mods: seq<Module>, n: nat)
    requires 4 * n <= |stack|
    ensures InOrder(stack, mods, FirstHits(stack, mods, n), n)
  {
    if n > 0 {
      HitsInOrder(stack, mods, n - 1);
      NextWord(stack, mods, FirstHits(stack, mods, n - 1), FirstHits(stack, mods, n), n);
    }
  }

  /** Every entry reports a first occurrence; they come in stack order, no address twice. */
  lemma HitsAreFirst(stack: Bytes, mods: seq<Module>, k: nat, l: nat)
    requires k <= l < |FirstHits(stack, mods, |stack| / 4)|
    ensures var out := FirstHits(stack, mods, |stack| / 4);
      Genuine(stack, mods, out[k]) && Genuine(stack, mods, out[l]) &&
      (k < l ==> out[k].at < out[l].at && out[k].addr != out[l].addr)
  {
    var out := FirstHits(stack, mods, |stack| / 4);
    HitsInOrder(stack, mods, |stack| / 4);
    assert Genuine(stack, mods, out[k]) && Genuine(stack, mods, out[l]);
  }

  ghost predicate Reports(out: seq<Hit>, addr: nat) {
    exists k :: 0 <= k < |out| && out[k].addr == addr
  }

  lemma ReportsMore(out: seq<Hit>, more: seq<Hit>, addr: nat)
    requires Reports(out, addr)
    ensures Reports(out + more, addr)
  {
    var k :| 0 <= k < |out| && out[k].addr == addr;
    assert (out + more)[k].addr == addr;
  }

  /** Every word that points past the start of a named module is listed. */
  lemma AllReported(stack: Bytes, mods: seq<Module>, i: nat, k: nat)
    requires PointsInto(stack, mods, i, k)
    ensures Reports(FirstHits(stack, mods, |stack| / 4), StackWord(stack, i))
  {
    ModuleForOwner(mods, StackWord(stack, i), k);
    CandidateReported(stack, mods, |stack| / 4, i);
  }

  lemma {:induction false} CandidateReported(stack: Bytes, mods: seq<Module>, n: nat, i: nat)
    requires i < n && 4 * n <= |stack| && Candidate(mods, StackWord(stack, i))
    ensures Reports(FirstHits(stack, mods, n), StackWord(stack, i))
    decreases i, n
  {
    var out, before := FirstHits(stack, mods, n), FirstHits(stack, mods, n - 1);
    if !FirstSeen(stack, i) {
      var j: nat :| j < i && StackWord(stack, j) == StackWord(stack, i);
      CandidateReported(stack, mods, n, j);
    } else if i < n - 1 {
      CandidateReported(stack, mods, n - 1, i);
      ReportsMore(before, out[|before|..], StackWord(stack, i));
      assert before + out[|before|..] == out;
    } else {
      assert out[|before|].addr == StackWord(stack, i);
    }
  }
}
