/**
 Laying the memory images of several checkpoints behind each other
 (util/checkpoint_aggregator.py): pages are copied in order, addresses move by the pages in
 front of them, and the result is padded to the requested size.
 */
module MemoryImage {
  import opened Varint

  const PAGE: nat := 4096

  /** A checkpoint's memory: the image as stored, and the number of pages in use. */
  datatype Memory = Memory(image: seq<Byte>, pages: nat)

  /** The image holds all the pages it is said to. */
  ghost predicate Full(m: Memory) {
    |m.image| >= m.pages * PAGE
  }

  /** The bytes copied: as many pages as the count says, or all there is. */
  function Copied(m: Memory): seq<Byte> {
    Taken(m.image, m.pages * PAGE)
  }

  function Body(ms: seq<Memory>): seq<Byte> {
    if ms == [] then [] else Body(ms[..|ms| - 1]) + Copied(ms[|ms| - 1])
  }

  function TotalPages(ms: seq<Memory>): nat {
    if ms == [] then 0 else TotalPages(ms[..|ms| - 1]) + ms[|ms| - 1].pages
  }

  /** Where address `a` of checkpoint `i` goes. */
  function Relocated(ms: seq<Memory>, i: nat, a: nat): nat
    requires i < |ms|
  {
    a + TotalPages(ms[..i]) * PAGE
  }

  // ---------- copying ----------

  method CopyPage(out: OutFile, file: InFile)
    requires file.Valid()
    modifies out, file
    ensures file.Valid() && out.data == old(out.data) + Taken(old(file.Rest()), PAGE)
    ensures file.Rest() == Dropped(old(file.Rest()), PAGE)
  {
    var bytes := file.Read(PAGE);
    out.Write(bytes);
  }

  /** Copies `pages` pages from the image, one read at a time. */
  method CopyPages(out: OutFile, m: Memory)
    modifies out
    ensures out.data == old(out.data) + Copied(m)
  {
    var file := new InFile(m.image);
    var x := 0;
    NoPage(out.data, m.image);
    while x < m.pages
      invariant 0 <= x <= m.pages && file.Valid() && fresh(file)
      invariant out.data == old(out.data) + Taken(m.image, x * PAGE)
      invariant file.Rest() == Dropped(m.image, x * PAGE)
    {
      NextPage(old(out.data), m.image, x);
      CopyPage(out, file);
      x := x + 1;
    }
  }

  lemma {:induction false} NoPage(before: seq<Byte>, image: seq<Byte>)
    ensures before + Taken(image, 0) == before && Dropped(image, 0) == image
  {
  }

  lemma {:induction false} NextPage(before: seq<Byte>, image: seq<Byte>, x: nat)
    ensures before + Taken(image, x * PAGE) + Taken(Dropped(image, x * PAGE), PAGE) == before + Taken(image, (x + 1) * PAGE)
    ensures Dropped(Dropped(image, x * PAGE), PAGE) == Dropped(image, (x + 1) * PAGE)
  {
    TakenMore(image, x * PAGE);
    var a, b := Taken(image, x * PAGE), Taken(Dropped(image, x * PAGE), PAGE);
    assert before + a + b == before + (a + b);
  }

  lemma {:induction false} TakenMore(image: seq<Byte>, a: nat)
    ensures Taken(image, a) + Taken(Dropped(image, a), PAGE) == Taken(image, a + PAGE)
    ensures Dropped(Dropped(image, a), PAGE) == Dropped(image, a + PAGE)
  {
    if a <= |image| {
      if a + PAGE <= |image| {
        assert image[..a] + image[a..][..PAGE] == image[..a + PAGE];
      } else {
        assert image[..a] + image[a..] == image;
      }
    }
  }

  // ---------- padding ----------

  /** The page of zero digits written as padding. */
  function PadPage(): (page: seq<Byte>)
    ensures |page| == PAGE
  {
    seq(PAGE, _ => 0x30)
  }

  function Repeated(page: seq<Byte>, n: nat): seq<Byte> {
    if n == 0 then [] else Repeated(page, n - 1) + page
  }

  function RoundUp(size: nat): nat {
    (size + PAGE - 1) / PAGE
  }

  /** The pages of the padded image: all that are in use, or enough for the requested size. */
  function PaddedPages(pages: nat, memorySize: nat): nat {
    if pages >= RoundUp(memorySize) then pages else RoundUp(memorySize)
  }

  /** Memory of `pages` pages, padded to the memory size. */
  function PaddedData(data: seq<Byte>, pages: nat, memorySize: nat): seq<Byte> {
    data + Repeated(PadPage(), PaddedPages(pages, memorySize) - pages)
  }

  method Pad(out: OutFile, pages: nat, memorySize: nat) returns (padded: nat)
    modifies out
    ensures padded == PaddedPages(pages, memorySize)
    ensures out.data == PaddedData(old(out.data), pages, memorySize)
  {
    padded := pages;
    var size := pages * PAGE;
    while size < memorySize
      invariant padded >= pages && size == padded * PAGE
      invariant padded > pages ==> padded <= RoundUp(memorySize)
      invariant out.data == old(out.data) + Repeated(PadPage(), padded - pages)
    {
      assert padded < RoundUp(memorySize);
      out.Write(PadPage());
      size := size + PAGE;
      padded := padded + 1;
    }
  }

  lemma {:induction false} RepeatedByte(n: nat, k: nat)
    requires k < |Repeated(PadPage(), n)|
    ensures Repeated(PadPage(), n)[k] == 0x30
  {
    if n > 0 && k < |Repeated(PadPage(), n - 1)| {
      RepeatedByte(n - 1, k);
    }
  }

  /** Behind the memory there are zero digits, and in front of them the memory is unchanged. */
  lemma {:induction false} PaddingBytes(data: seq<Byte>, pages: nat, memorySize: nat, a: nat)
    requires a < |PaddedData(data, pages, memorySize)|
    ensures PaddedData(data, pages, memorySize)[a] == if a < |data| then data[a] else 0x30
  {
    if a >= |data| {
      RepeatedByte(PaddedPages(pages, memorySize) - pages, a - |data|);
    }
  }

  lemma {:induction false} PaddedLength(data: seq<Byte>, pages: nat, memorySize: nat)
    ensures |PaddedData(data, pages, memorySize)| == |data| + (PaddedPages(pages, memorySize) - pages) * PAGE
  {
    RepeatedLength(PaddedPages(pages, memorySize) - pages);
  }

  lemma {:induction false} RepeatedLength(n: nat)
    ensures |Repeated(PadPage(), n)| == n * PAGE
  {
    if n > 0 {
      RepeatedLength(n - 1);
    }
  }

  // ---------- what the merged image holds ----------

  lemma {:induction false} BodyLength(ms: seq<Memory>)
    ensures |Body(ms)| <= TotalPages(ms) * PAGE
    ensures |Body(ms)| == TotalPages(ms) * PAGE <==> forall i :: 0 <= i < |ms| ==> Full(ms[i])
  {
    if ms != [] {
      var front, last := ms[..|ms| - 1], ms[|ms| - 1];
      BodyLength(front);
      assert TotalPages(ms) * PAGE == TotalPages(front) * PAGE + last.pages * PAGE;
      assert |Copied(last)| == last.pages * PAGE <==> Full(last);
      assert (forall i :: 0 <= i < |ms| ==> Full(ms[i])) <==> Full(last) && forall i :: 0 <= i < |front| ==> Full(front[i]);
    }
  }

  lemma {:induction false} BodyPrefix(ms: seq<Memory>, i: nat)
    requires i < |ms|
    ensures Body(ms[..i]) + Copied(ms[i]) <= Body(ms)
    decreases |ms|
  {
    var front := ms[..|ms| - 1];
    if i == |ms| - 1 {
      assert ms[..i] == front;
    } else {
      BodyPrefix(front, i);
      assert front[..i] == ms[..i];
    }
  }

  /** Every checkpoint starts where its addresses are moved to exactly when the images in front of it are full. */
  lemma {:induction false} PlacedIff(ms: seq<Memory>, i: nat)
    requires i < |ms|
    ensures |Body(ms[..i])| == Relocated(ms, i, 0) <==> forall j :: 0 <= j < i ==> Full(ms[j])
  {
    BodyLength(ms[..i]);
    assert forall j :: 0 <= j < i ==> ms[..i][j] == ms[j];
  }

  /** Every in-use address of every checkpoint reads its own byte at its relocated place. */
  lemma {:induction false} RelocatedByte(ms: seq<Memory>, i: nat, a: nat)
    requires i < |ms| && Full(ms[i]) && forall j :: 0 <= j < i ==> Full(ms[j])
    requires a < ms[i].pages * PAGE
    ensures Relocated(ms, i, a) < |Body(ms)| && Body(ms)[Relocated(ms, i, a)] == ms[i].image[a]
  {
    PlacedIff(ms, i);
    BodyPrefix(ms, i);
    var part := Body(ms[..i]) + Copied(ms[i]);
    assert part[Relocated(ms, i, a)] == Copied(ms[i])[a];
  }

  lemma {:induction false} PagesBefore(ms: seq<Memory>, i: nat, j: nat)
    requires i < j <= |ms|
    ensures TotalPages(ms[..i]) + ms[i].pages <= TotalPages(ms[..j])
    decreases j
  {
    assert ms[..j][..j - 1] == ms[..j - 1];
    if i < j - 1 {
      PagesBefore(ms, i, j - 1);
    }
  }

  /** No two checkpoints share a relocated address. */
  lemma {:induction false} RelocatedDisjoint(ms: seq<Memory>, i: nat, j: nat, a: nat, b: nat)
    requires i < |ms| && j < |ms| && i != j
    requires a < ms[i].pages * PAGE && b < ms[j].pages * PAGE
    ensures Relocated(ms, i, a) != Relocated(ms, j, b)
  {
    PagesBefore(ms, if i < j then i else j, if i < j then j else i);
  }

  /** The size of the finished image, when no image is cut short. */
  /** Addresses of a checkpoint move by the pages of those in front of it, of 4096 bytes each. */
  lemma {:induction false} RelocatedBy(ms: seq<Memory>, i: nat, a: nat)
    requires i < |ms|
    ensures Relocated(ms, i, a) - a == if i == 0 then 0 else Relocated(ms, i - 1, a) - a + 4096 * ms[i - 1].pages
  {
    if i > 0 {
      assert ms[..i][..i - 1] == ms[..i - 1];
    }
  }

  lemma {:induction false} FinalSize(ms: seq<Memory>, memorySize: nat)
    requires forall i :: 0 <= i < |ms| ==> Full(ms[i])
    ensures var pages := TotalPages(ms);
            var padded := PaddedPages(pages, memorySize);
            && |PaddedData(Body(ms), pages, memorySize)| == padded * PAGE
            && padded * PAGE >= memorySize
            && (padded > pages ==> (padded - 1) * PAGE < memorySize)
  {
    BodyLength(ms);
    PaddedLength(Body(ms), TotalPages(ms), memorySize);
  }
}
