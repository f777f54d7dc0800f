/** 8.3 names (Microsoft FAT Specification, section 6.1) as servers/fs/fs.cpp builds, compares and
    reads them. Strings are byte sequences without the terminating zero. */
module FatNames {

  type byte = x: int | 0 <= x < 256

  type Bytes = seq<byte>

  const SPACE: byte := 0x20
  const DOT: byte := 0x2e

  function ToUpper(c: byte): byte {
    if 97 <= c <= 122 then c - 32 else c
  }

  function Upper(s: Bytes): (u: Bytes)
    ensures |u| == |s| && forall i :: 0 <= i < |s| ==> u[i] == ToUpper(s[i])
  {
    seq(|s|, i requires 0 <= i < |s| => ToUpper(s[i]))
  }

  function Spaces(n: nat): (s: Bytes)
    ensures |s| == n && forall i :: 0 <= i < n ==> s[i] == SPACE
  {
    seq(n, _ => SPACE)
  }

  /** s cut or padded with spaces to n bytes. */
  function Pad(s: Bytes, n: nat): (p: Bytes)
    ensures |p| == n && forall i :: 0 <= i < n ==> p[i] == if i < |s| then s[i] else SPACE
  {
    if |s| >= n then s[..n] else s + Spaces(n - |s|)
  }

  /** What NameIsEqual writes into its 11-byte buffer from index i of the name on. */
  function Fill(buf: Bytes, name: Bytes, i: nat, i83: nat): (r: Bytes)
    requires |buf| == 11 && i <= |name|
    ensures |r| == 11
    decreases |name| - i
  {
    if i == |name| || i83 >= 11 then buf
    else if name[i] == DOT then Fill(buf, name, i + 1, 8)
    else Fill(buf[i83 := ToUpper(name[i])], name, i + 1, i83 + 1)
  }

  /** The 11 bytes a path element is compared with. */
  function Name83(name: Bytes): (r: Bytes)
    ensures |r| == 11
  {
    Fill(Spaces(11), name, 0, 0)
  }

  method NameIsEqual(entryName: Bytes, name: Bytes) returns (same: bool)
    requires |entryName| == 11
    ensures same <==> entryName == Name83(name)
  {
    var name83 := new byte[11](_ => SPACE);
    assert name83[..] == Spaces(11);
    var i, i83 := 0, 0;
    while i < |name| && i83 < 11
      invariant i <= |name| && Fill(name83[..], name, i, i83) == Name83(name)
    {
      if name[i] == DOT {
        i83 := 7;
      } else {
        name83[i83] := ToUpper(name[i]);
      }
      i, i83 := i + 1, i83 + 1;
    }
    same := entryName == name83[..];
  }

  /** The last dot of a name, or its length when there is none. */
  function LastDot(name: Bytes): (d: nat)
    ensures d <= |name|
    ensures d < |name| ==> name[d] == DOT
    ensures forall i :: d < i < |name| ==> name[i] != DOT
    ensures d == |name| ==> DOT !in name
  {
    if name == [] then 0
    else if name[|name| - 1] == DOT then |name| - 1
    else
      var d := LastDot(name[..|name| - 1]);
      if d == |name| - 1 then |name| else d
  }

  function Base(name: Bytes): Bytes {
    name[..LastDot(name)]
  }

  function Extension(name: Bytes): Bytes {
    if LastDot(name) < |name| then name[LastDot(name) + 1..] else []
  }

  /** The name SetFileName stores: base up to the last dot, extension behind it, both cut. */
  function Stored(name: Bytes): (r: Bytes)
    ensures |r| == 11
  {
    Pad(Upper(Base(name)), 8) + Pad(Upper(Extension(name)), 3)
  }

  /** The copying loops of SetFileName: at most n upper-cased bytes, to offset o. */
  method CopyUpper(buf: array<byte>, o: nat, n: nat, s: Bytes)
    requires o + n <= buf.Length
    modifies buf
    ensures forall k :: 0 <= k < buf.Length ==>
              buf[k] == if o <= k < o + n && k - o < |s| then ToUpper(s[k - o]) else old(buf[k])
  {
    var i := 0;
    while i < n && i < |s|
      invariant i <= n && i <= |s|
      invariant forall k :: 0 <= k < buf.Length ==> buf[k] == if o <= k < o + i then ToUpper(s[k - o]) else old(buf[k])
    {
      buf[o + i] := ToUpper(s[i]);
      i := i + 1;
    }
  }

  /** Writes a name into the entry that starts at offset o of a buffer. */
  method SetFileName(buf: array<byte>, o: nat, name: Bytes)
    requires o + 11 <= buf.Length
    modifies buf
    ensures buf[..] == old(buf[..o]) + Stored(name) + old(buf[o + 11..])
  {
    hide LastDot, Upper, Pad;
    ghost var was := buf[..];
    forall i | o <= i < o + 11 {
      buf[i] := SPACE;
    }
    var dotPos := LastDot(name);
    CopyUpper(buf, o, 8, name[..dotPos]);
    if dotPos < |name| {
      CopyUpper(buf, o + 8, 3, name[dotPos + 1..]);
    }
    StoredBytes(name);
    assert forall k :: 0 <= k < buf.Length ==> buf[k] == (was[..o] + Stored(name) + was[o + 11..])[k];
  }

  lemma StoredBytes(name: Bytes)
    ensures forall k :: 0 <= k < 8 ==> Stored(name)[k] == if k < |Base(name)| then ToUpper(Base(name)[k]) else SPACE
    ensures forall k :: 8 <= k < 11 ==>
              Stored(name)[k] == if k - 8 < |Extension(name)| then ToUpper(Extension(name)[k - 8]) else SPACE
  {
    hide LastDot, Upper, Pad;
  }

  /** A base of one to eight bytes, and an optional extension of one to three, neither with dots
      or spaces. */
  ghost predicate Valid83(name: Bytes) {
    var d := LastDot(name);
    && 1 <= d <= 8
    && (d < |name| ==> 2 <= |name| - d <= 4)
    && (forall i :: 0 <= i < |name| && i != d ==> name[i] != DOT && name[i] != SPACE)
  }

  /** Without dots, Fill copies upper-cased bytes from i83 on. */
  lemma {:induction false} FillPlain(buf: Bytes, name: Bytes, i: nat, i83: nat, n: nat)
    requires |buf| == 11 && i + n <= |name| && i83 + n <= 11
    requires forall k :: i <= k < i + n ==> name[k] != DOT
    ensures Fill(buf, name, i, i83) == Fill(buf[..i83] + Upper(name[i..i + n]) + buf[i83 + n..], name, i + n, i83 + n)
    decreases n
  {
    if n == 0 {
      assert buf[..i83] + Upper(name[i..i]) + buf[i83..] == buf;
    } else {
      var buf' := buf[i83 := ToUpper(name[i])];
      FillPlain(buf', name, i + 1, i83 + 1, n - 1);
      assert buf'[..i83 + 1] + Upper(name[i + 1..i + n]) + buf'[i83 + n..] == buf[..i83] + Upper(name[i..i + n]) + buf[i83 + n..];
    }
  }

  /** For a valid name the comparison buffer is exactly what SetFileName stores. */
  lemma StoredIsName83(name: Bytes)
    requires Valid83(name)
    ensures Name83(name) == Stored(name)
  {
    hide Fill, LastDot, Upper, Pad;
    var d := LastDot(name);
    var buf := Pad(Upper(Base(name)), 8) + Spaces(3);
    FillBase(name);
    if d < |name| {
      FillDot(buf, name, d);
      FillExtension(name, buf);
    } else {
      FillDone(buf, name, d);
      assert Spaces(3) == Pad(Upper(Extension(name)), 3);
    }
  }

  lemma FillBase(name: Bytes)
    requires Valid83(name)
    ensures var d := LastDot(name);
            Name83(name) == Fill(Pad(Upper(Base(name)), 8) + Spaces(3), name, d, d)
  {
    hide Fill, LastDot, Upper, Pad;
    var d := LastDot(name);
    FillPlain(Spaces(11), name, 0, 0, d);
    assert name[0..0 + d] == Base(name);
    assert Spaces(11)[..0] + Upper(Base(name)) + Spaces(11)[d..] == Pad(Upper(Base(name)), 8) + Spaces(3);
  }

  lemma FillDot(buf: Bytes, name: Bytes, d: nat)
    requires |buf| == 11 && d < |name| && d <= 8 && name[d] == DOT
    ensures Fill(buf, name, d, d) == Fill(buf, name, d + 1, 8)
  {
  }

  lemma FillDone(buf: Bytes, name: Bytes, i83: nat)
    requires |buf| == 11
    ensures Fill(buf, name, |name|, i83) == buf
  {
  }

  lemma FillExtension(name: Bytes, buf: Bytes)
    requires Valid83(name) && LastDot(name) < |name| && buf == Pad(Upper(Base(name)), 8) + Spaces(3)
    ensures Fill(buf, name, LastDot(name) + 1, 8) == Stored(name)
  {
    hide Fill, LastDot, Upper, Pad;
    var d := LastDot(name);
    var n := |name| - d - 1;
    FillPlain(buf, name, d + 1, 8, n);
    assert name[d + 1..d + 1 + n] == Extension(name);
    var r := buf[..8] + Upper(Extension(name)) + buf[8 + n..];
    assert buf[..8] == Pad(Upper(Base(name)), 8);
    assert Upper(Extension(name)) + buf[8 + n..] == Pad(Upper(Extension(name)), 3);
    assert r == Stored(name);
    FillDone(r, name, 8 + n);
  }

  lemma PadShorter(s: Bytes, t: Bytes, n: nat)
    requires |s| < |t| <= n && SPACE !in t
    ensures Pad(Upper(s), n) != Pad(Upper(t), n)
  {
    hide Pad, Upper;
    assert Pad(Upper(s), n)[|s|] == SPACE;
    assert t[|s|] in t;
    assert Pad(Upper(t), n)[|s|] == ToUpper(t[|s|]) != SPACE;
  }

  /** Two strings of non-spaces that agree once upper-cased and padded agree up to case. */
  lemma PadInjective(s: Bytes, t: Bytes, n: nat)
    requires |s| <= n && |t| <= n && Pad(Upper(s), n) == Pad(Upper(t), n)
    requires SPACE !in s && SPACE !in t
    ensures Upper(s) == Upper(t)
  {
    hide Pad, Upper;
    var p, q := Pad(Upper(s), n), Pad(Upper(t), n);
    assert |s| == |t| by {
      if |s| < |t| {
        PadShorter(s, t, n);
      } else if |t| < |s| {
        PadShorter(t, s, n);
      }
    }
    assert forall i :: 0 <= i < |s| ==> Upper(s)[i] == p[i] == q[i] == Upper(t)[i];
  }

  lemma NameParts(name: Bytes)
    requires Valid83(name)
    ensures SPACE !in Base(name) && SPACE !in Extension(name)
    ensures 1 <= |Base(name)| <= 8 && |Extension(name)| <= 3
    ensures name == Base(name) + (if Extension(name) == [] then [] else [DOT] + Extension(name))
  {
    hide LastDot;
  }

  lemma UpperConcat(s: Bytes, t: Bytes)
    ensures Upper(s + t) == Upper(s) + Upper(t)
  {
    hide Upper;
  }

  lemma UpperParts(name: Bytes)
    requires Valid83(name)
    ensures Upper(name) == Upper(Base(name)) + (if Extension(name) == [] then [] else [DOT] + Upper(Extension(name)))
  {
    hide Base, Extension, Upper, Valid83;
    NameParts(name);
    if Extension(name) != [] {
      UpperConcat(Base(name), [DOT] + Extension(name));
      UpperConcat([DOT], Extension(name));
      assert Upper([DOT]) == [DOT];
    } else {
      assert Base(name) + [] == Base(name);
    }
  }

  /** Same stored bytes, same name up to case. */
  lemma StoredInjective(a: Bytes, b: Bytes)
    requires Valid83(a) && Valid83(b) && Stored(a) == Stored(b)
    ensures Upper(a) == Upper(b)
  {
    hide Base, Extension, Upper, Pad, Valid83;
    NameParts(a);
    NameParts(b);
    assert Stored(a)[..8] == Pad(Upper(Base(a)), 8) && Stored(b)[..8] == Pad(Upper(Base(b)), 8);
    assert Stored(a)[8..] == Pad(Upper(Extension(a)), 3) && Stored(b)[8..] == Pad(Upper(Extension(b)), 3);
    PadInjective(Base(a), Base(b), 8);
    PadInjective(Extension(a), Extension(b), 3);
    UpperParts(a);
    UpperParts(b);
  }

  /** Upper-casing keeps the shape of a name. */
  lemma UpperStored(a: Bytes, b: Bytes)
    requires Upper(a) == Upper(b)
    ensures Stored(a) == Stored(b)
  {
    hide LastDot, Upper, Pad;
    assert |a| == |Upper(a)| == |b|;
    forall i | 0 <= i < |a|
      ensures ToUpper(a[i]) == ToUpper(b[i])
    {
      assert Upper(a)[i] == Upper(b)[i];
    }
    SameDot(a, b);
    assert Upper(Base(a)) == Upper(Base(b));
    assert Upper(Extension(a)) == Upper(Extension(b));
  }

  lemma SameDot(a: Bytes, b: Bytes)
    requires |a| == |b| && forall i :: 0 <= i < |a| ==> ToUpper(a[i]) == ToUpper(b[i])
    ensures LastDot(a) == LastDot(b)
  {
    hide LastDot;
    assert forall i :: 0 <= i < |a| ==> (a[i] == DOT <==> b[i] == DOT);
    var d, e := LastDot(a), LastDot(b);
    assert d < |a| ==> b[d] == DOT;
    assert e < |b| ==> a[e] == DOT;
  }

  /** The entry SetFileName builds for a answers to b exactly when the two names agree up to case. */
  lemma NamesAgree(a: Bytes, b: Bytes)
    requires Valid83(a) && Valid83(b)
    ensures Stored(a) == Name83(b) <==> Upper(a) == Upper(b)
  {
    StoredIsName83(b);
    if Stored(a) == Name83(b) {
      StoredInjective(a, b);
    }
    if Upper(a) == Upper(b) {
      UpperStored(a, b);
    }
  }

  /** s without its trailing spaces. */
  function Trim(s: Bytes): (t: Bytes)
    ensures t <= s && (t != [] ==> t[|t| - 1] != SPACE)
  {
    if s == [] then []
    else if s[|s| - 1] == SPACE then Trim(s[..|s| - 1])
    else s
  }

  /** ReadName: the two parts of a stored name, cut at the first zero. */
  method ReadName(entryName: Bytes) returns (base: Bytes, ext: Bytes)
    requires |entryName| == 11
    ensures base == Trim(entryName[..8]) && ext == Trim(entryName[8..])
  {
    base := entryName[..8];
    while base != [] && base[|base| - 1] == SPACE
      invariant Trim(base) == Trim(entryName[..8])
    {
      base := base[..|base| - 1];
    }
    ext := entryName[8..];
    while ext != [] && ext[|ext| - 1] == SPACE
      invariant Trim(ext) == Trim(entryName[8..])
    {
      ext := ext[..|ext| - 1];
    }
  }

  lemma {:induction false} TrimPad(s: Bytes, n: nat)
    requires |s| <= n && (s != [] ==> s[|s| - 1] != SPACE)
    ensures Trim(Pad(s, n)) == s
    decreases n
  {
    hide Pad, Spaces, Upper;
    if n > |s| {
      assert Pad(s, n)[..n - 1] == Pad(s, n - 1);
      TrimPad(s, n - 1);
    } else {
      assert Pad(s, n) == s;
    }
  }

  /** Reading back a stored valid name gives its upper-cased parts. */
  lemma NameReadsBack(name: Bytes)
    requires Valid83(name)
    ensures Trim(Stored(name)[..8]) == Upper(Base(name)) && Trim(Stored(name)[8..]) == Upper(Extension(name))
  {
    hide Base, Extension, Upper, Pad, Valid83, Trim;
    NameParts(name);
    var base, ext := Upper(Base(name)), Upper(Extension(name));
    assert Stored(name)[..8] == Pad(base, 8) && Stored(name)[8..] == Pad(ext, 3);
    assert Base(name)[|base| - 1] in Base(name);
    assert ext != [] ==> Extension(name)[|ext| - 1] in Extension(name);
    TrimPad(base, 8);
    TrimPad(ext, 3);
  }
}
