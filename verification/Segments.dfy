/** kernel/system.cpp: the load segments of an application's image, and what they make of its pages. */
module Segments {
  import opened Options
  import opened PageEntry
  import opened PageTree
  import opened PageBytes
  import opened KernelHalf
  import opened AppFrames

  /** A load segment: its address, the bytes the file has for it, and its size in memory. */
  datatype Segment = Segment(vaddr: Address, file: seq<byte>, memsz: nat) {
    /** The number of its first byte, counted from the beginning of the address space the four tables map. */
    function Start(): nat {
      PAGE * PageNumber(vaddr) + vaddr.offset
    }

    /** What the segment holds: the bytes of the file, and zeros. */
    function Bytes(): (b: seq<byte>)
      ensures |file| <= memsz ==> |b| == memsz
    {
      file + Zeros(memsz - |file|)
    }

    /** num_4kpages: as many pages as would hold the segment if it began with one. */
    function Pages(): nat {
      (memsz + 4095) / 4096
    }

    /** In the application's half and below the stack, with no more bytes in the file than in memory. */
    ghost predicate InPlace() {
      |file| <= memsz && FIRST_USER_INDEX <= vaddr.pml4 && Canonical(vaddr) && Start() + memsz <= PAGE * PageNumber(STACK_ADDRESS)
    }

    /** The pages of the segment are enough for it although it begins inside the first. */
    predicate Fits() {
      memsz == 0 || vaddr.offset + memsz <= PAGE * Pages()
    }

    /** The pages that are mapped for it. */
    ghost predicate Covers(q: Path)
      requires PagePath(q)
    {
      PageNumber(vaddr) <= Rank(q) < PageNumber(vaddr) + Pages()
    }

    /** What becomes of a page when the segment is loaded. */
    ghost function On(was: Option<Table>, q: Path): (now: Option<Table>)
      requires PagePath(q)
      ensures now.Some? <==> was.Some? || Covers(q)
    {
      match was
      case Some(t) => Some(LaidOn(t, PAGE * Rank(q), Start(), Bytes()))
      case None => if Covers(q) then Some(LaidOn(Blank(), PAGE * Rank(q), Start(), Bytes())) else None
    }

    /** The path of the i-th page. */
    function PathTo(i: nat): (q: Path)
      ensures |q| == 4
    {
      PathAt(PageNumber(vaddr) + i)
    }

    ghost function Paths(): (s: set<Path>)
      ensures forall q :: q in s ==> |q| == 4
    {
      set i: nat | i < Pages() :: PathTo(i)
    }
  }

  function Zeros(n: int): (b: seq<byte>)
    ensures |b| == if n < 0 then 0 else n
  {
    if n <= 0 then [] else seq(n, _ => 0)
  }

  /** What an image holds at a page once its segments are loaded in their order. */
  ghost function ImageAt(segments: seq<Segment>, q: Path): Option<Table>
    requires PagePath(q)
  {
    if segments == [] then None
    else segments[|segments| - 1].On(ImageAt(segments[..|segments| - 1], q), q)
  }

  /** The copy of segment k finds every page it writes to: those of the segment are enough, or the one more
      that it reaches was mapped for a segment before. */
  ghost predicate Loads(segments: seq<Segment>, k: nat)
    requires k < |segments|
  {
    segments[k].Fits() || TailThere(segments[k], segments[..k])
  }

  ghost predicate TailThere(s: Segment, before: seq<Segment>) {
    PagePath(s.PathTo(s.Pages())) && ImageAt(before, s.PathTo(s.Pages())).Some?
  }

  /** The first segment from k on whose copy misses a page. */
  ghost function Stop(segments: seq<Segment>, k: nat): (n: nat)
    requires k <= |segments|
    ensures k <= n <= |segments| && (n < |segments| ==> !Loads(segments, n)) && forall j :: k <= j < n ==> Loads(segments, j)
    decreases |segments| - k
  {
    if k == |segments| || !Loads(segments, k) then k else Stop(segments, k + 1)
  }

  /** The segments up to it: those that are mapped. */
  ghost function Begun(segments: seq<Segment>): seq<Segment> {
    var n := Stop(segments, 0);
    if n == |segments| then segments else segments[..n + 1]
  }

  /** The path of a page number. */
  function PathAt(n: nat): (q: Path)
    ensures |q| == 4
  {
    [n / 512 / 512 / 512, n / 512 / 512 % 512, n / 512 % 512, n % 512]
  }

  lemma PathAtRank(n: nat)
    requires FIRST_USER_INDEX * 512 * 512 * 512 <= n < 512 * 512 * 512 * 512
    ensures PagePath(PathAt(n)) && Rank(PathAt(n)) == n
  {
    var a, b, c := n / 512, n / 512 / 512, n / 512 / 512 / 512;
    assert n == 512 * a + n % 512 && a == 512 * b + a % 512 && b == 512 * c + b % 512;
  }

  /** The pages of an image. */
  ghost function PagesOf(segments: seq<Segment>): (s: set<Path>)
    ensures forall q :: q in s ==> |q| == 4
  {
    set k: nat, q | k < |segments| && q in segments[k].Paths() :: q
  }

  /** The tables on the way to them. */
  ghost function TablesOf(segments: seq<Segment>): set<Path> {
    {[]} + set q, n: nat | q in PagesOf(segments) && n < 4 :: q[..n]
  }

  /** How many frames an image takes. */
  ghost function ImageNeed(segments: seq<Segment>): nat {
    |TablesOf(segments)| + |PagesOf(segments)|
  }

  ghost predicate AllInPlace(segments: seq<Segment>) {
    forall s :: s in segments ==> s.InPlace()
  }

  lemma SegmentBounds(s: Segment, i: nat)
    requires s.InPlace() && i < s.Pages()
    ensures FIRST_USER_INDEX * 512 * 512 * 512 <= PageNumber(s.vaddr) + i < PageNumber(STACK_ADDRESS) < 512 * 512 * 512 * 512
    ensures s.Pages() <= Room(s.vaddr, 4)
  {
    AppAddresses();
    assert PAGE * (PageNumber(s.vaddr) + i) < s.Start() + s.memsz;
  }

  lemma CoveredPage(s: Segment, i: nat)
    requires s.InPlace() && i < s.Pages()
    ensures var q := s.PathTo(i);
            PagePath(q) && Rank(q) == PageNumber(s.vaddr) + i && s.Covers(q)
  {
    SegmentBounds(s, i);
    PathAtRank(PageNumber(s.vaddr) + i);
  }

  /** A page belongs to an image exactly when some segment covers it. */
  lemma InImage(segments: seq<Segment>, q: Path)
    requires AllInPlace(segments)
    ensures q in PagesOf(segments) <==> PagePath(q) && exists k :: 0 <= k < |segments| && segments[k].Covers(q)
  {
    hide Segment.InPlace, PageNumber, Rank, PathAt, UserPath;
    if q in PagesOf(segments) {
      var k: nat :| k < |segments| && q in segments[k].Paths();
      var i: nat :| i < segments[k].Pages() && q == segments[k].PathTo(i);
      CoveredPage(segments[k], i);
    }
    if PagePath(q) && exists k :: 0 <= k < |segments| && segments[k].Covers(q) {
      var k :| 0 <= k < |segments| && segments[k].Covers(q);
      var i := Rank(q) - PageNumber(segments[k].vaddr);
      CoveredPage(segments[k], i);
      RankInjective(q, segments[k].PathTo(i));
      assert q in segments[k].Paths();
    }
  }

  lemma {:induction false} CoveredAt(segments: seq<Segment>, q: Path)
    requires PagePath(q)
    ensures ImageAt(segments, q).Some? <==> exists k :: 0 <= k < |segments| && segments[k].Covers(q)
  {
    hide PageNumber, Rank, UserPath;
    if segments != [] {
      var front := segments[..|segments| - 1];
      CoveredAt(front, q);
      if exists k :: 0 <= k < |front| && front[k].Covers(q) {
        var k :| 0 <= k < |front| && front[k].Covers(q);
        assert segments[k].Covers(q);
      }
    }
  }

  lemma ImageMore(segments: seq<Segment>, k: nat, q: Path)
    requires k < |segments| && PagePath(q)
    ensures ImageAt(segments[..k + 1], q) == segments[k].On(ImageAt(segments[..k], q), q)
  {
    assert segments[..k + 1][..k] == segments[..k];
  }

  /** A segment that begins inside a page may reach one page further than the code maps, and no more. */
  lemma TailPage(s: Segment)
    requires s.InPlace() && s.memsz > 0
    ensures (s.Start() + s.memsz - 1) / PAGE == PageNumber(s.vaddr) + s.Pages() - if s.Fits() then 1 else 0
  {
    var last := s.vaddr.offset + s.memsz - 1;
    assert s.Start() + s.memsz - 1 == PAGE * PageNumber(s.vaddr) + last;
    assert (PAGE * PageNumber(s.vaddr) + last) / PAGE == PageNumber(s.vaddr) + last / PAGE;
  }

  /** Every byte of a segment lies in one of its pages if and only if they are enough for it. */
  lemma EveryByteMapped(s: Segment)
    requires s.InPlace()
    ensures s.Fits() <==> forall k :: 0 <= k < s.memsz ==> PageNumber(s.vaddr) <= PageOfByte(s, k) < PageNumber(s.vaddr) + s.Pages()
  {
    if s.memsz > 0 {
      TailPage(s);
      assert PageOfByte(s, s.memsz - 1) == (s.Start() + s.memsz - 1) / PAGE;
    }
  }

  function PageOfByte(s: Segment, k: nat): nat {
    (s.Start() + k) / PAGE
  }

  /** Sixteen bytes at the end of a page and sixteen at the beginning of the next: one page is mapped for
      them. */
  lemma TailMissing() returns (s: Segment)
    ensures s.InPlace() && s.vaddr.offset == 4080 && s.memsz == 32 && s.Pages() == 1 && !s.Fits() && !Loads([s], 0)
  {
    s := Segment(Address(4080, 0, 0, 0, 256, 0xffff), Zeros(32), 32);
    AppAddresses();
    assert [s][..0] == [];
  }

  /** The byte an image has at a place: that of the last segment that has one there. */
  ghost function ByteAt(segments: seq<Segment>, b: nat): byte {
    if segments == [] then 0
    else
      var last := segments[|segments| - 1];
      if last.Start() <= b < last.Start() + |last.Bytes()| then last.Bytes()[b - last.Start()] else ByteAt(segments[..|segments| - 1], b)
  }

  /** Once all segments are loaded, the pages hold their bytes, and zeros in between. */
  lemma {:induction false} ImageBytes(segments: seq<Segment>, q: Path, j: nat)
    requires AllInPlace(segments) && PagePath(q) && j < PAGE && forall k :: 0 <= k < |segments| ==> Loads(segments, k)
    ensures match ImageAt(segments, q)
            case Some(t) => Byte(t, j) == ByteAt(segments, PAGE * Rank(q) + j)
            case None => ByteAt(segments, PAGE * Rank(q) + j) == 0
  {
    hide PageNumber, Rank, UserPath, Byte, LaidOn, Segment.InPlace, Segment.Start, Segment.Bytes, Segment.Covers, Segment.Fits, PathAt, Blank;
    if segments != [] {
      var last, front := segments[|segments| - 1], segments[..|segments| - 1];
      forall k | 0 <= k < |front|
        ensures Loads(front, k)
      {
        assert Loads(segments, k) && segments[..k] == front[..k];
      }
      assert AllInPlace(front) by {
        assert forall s :: s in front ==> s in segments;
      }
      assert last in segments && last.InPlace();
      ImageBytes(front, q, j);
      var b := PAGE * Rank(q) + j;
      var t := if ImageAt(front, q).Some? then ImageAt(front, q).value else Blank();
      LaidByte(t, PAGE * Rank(q), last.Start(), last.Bytes(), j);
      BlankByte(j);
      if last.Start() <= b < last.Start() + |last.Bytes()| {
        assert Loads(segments, |front|);
        ByteHasPage(last, front, q, j);
      }
    }
  }

  lemma BlankByte(j: nat)
    requires j < PAGE
    ensures Byte(Blank(), j) == 0
  {
    ZeroByte(j % 8);
  }

  lemma {:induction false} ZeroByte(k: nat)
    ensures WordByte(0, k) == 0
  {
    if k > 0 {
      ZeroByte(k - 1);
    }
  }

  /** The page of a byte of a segment that loads is there. */
  lemma ByteHasPage(s: Segment, front: seq<Segment>, q: Path, j: nat)
    requires s.InPlace() && PagePath(q) && j < PAGE && s.Start() <= PAGE * Rank(q) + j < s.Start() + |s.Bytes()|
    requires s.Fits() || TailThere(s, front)
    ensures s.Covers(q) || ImageAt(front, q).Some?
  {
    hide UserPath;
    TailPage(s);
    assert (PAGE * Rank(q) + j) / PAGE == Rank(q);
    if !s.Covers(q) {
      assert Rank(q) == PageNumber(s.vaddr) + s.Pages();
      PathAtRank(Rank(q));
      RankInjective(q, s.PathTo(s.Pages()));
    }
  }
}
