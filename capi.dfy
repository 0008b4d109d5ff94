/**
 * The C API layer: fixed-size and caller-sized string buffers filled with
 * strncpy and then terminated, the metadata queries that use them, the
 * unit conversions behind Library_VoxelsToMm / Library_MmToVoxels, and
 * Voxels_GetSlice. The POSIX branch (strncpy) is modelled; strings are
 * sequences of char and NUL is '\0'.
 */
module CApi {
  import opened Types
  import opened Wrappers
  import opened VoxelGrid
  import opened Scans
  import opened Registry
  import opened VoxelStore

  const NUL: char := '\0'

  /** PKINFOSTRINGLEN */
  const INFO_STRING_LEN: int := 255

  // ------------------------------------------------------------- C strings

  /** The C string std::string::c_str() hands out: its characters up to the first NUL. */
  function CStr(s: string): (r: string)
    ensures |r| <= |s| && r == s[..|r|]
    ensures forall i :: 0 <= i < |r| ==> r[i] != NUL
    ensures |r| < |s| ==> s[|r|] == NUL
    decreases |s|
  {
    if s == [] || s[0] == NUL then [] else [s[0]] + CStr(s[1..])
  }

  predicate NulFree(s: string)
  {
    forall i :: 0 <= i < |s| ==> s[i] != NUL
  }

  /** A string without NUL is its own C string. */
  lemma {:induction false} CStrOfNulFree(s: string)
    requires NulFree(s)
    ensures CStr(s) == s
    decreases |s|
  {
    if s != [] {
      CStrOfNulFree(s[1..]);
    }
  }

  /** Reading a C string stops at the first NUL: whatever follows a NUL-free prefix and a NUL is not read. */
  lemma {:induction false} CStrStopsAtNul(p: string, rest: string)
    requires NulFree(p)
    ensures CStr(p + [NUL] + rest) == p
    decreases |p|
  {
    if p == [] {
      assert (p + [NUL] + rest)[0] == NUL;
    } else {
      assert (p + [NUL] + rest)[1..] == p[1..] + [NUL] + rest;
      CStrStopsAtNul(p[1..], rest);
    }
  }

  /** n NUL characters. */
  function Nuls(n: nat): (r: string)
    ensures |r| == n && forall i :: 0 <= i < n ==> r[i] == NUL
  {
    seq(n, i => NUL)
  }

  /**
   * What strncpy(dst, s.c_str(), n) leaves in dst[0..n]: the C string of s,
   * cut to n characters, then NUL padding up to n. No terminator is written
   * when the C string has n characters or more.
   */
  function Strncpied(s: string, n: nat): (r: string)
    ensures |r| == n
    ensures var m := IMin(|CStr(s)|, n);
      r[..m] == CStr(s)[..m] && forall i :: m <= i < n ==> r[i] == NUL
  {
    var m := IMin(|CStr(s)|, n);
    CStr(s)[..m] + Nuls(n - m)
  }

  /**
   * A strncpied buffer followed by a terminator reads back as the C string
   * of the source cut to n characters: the terminator makes the buffer a C
   * string whatever the source's length.
   */
  lemma ReadBack(s: string, n: nat)
    ensures CStr(Strncpied(s, n) + [NUL]) == CStr(s)[..IMin(|CStr(s)|, n)]
  {
    var m := IMin(|CStr(s)|, n);
    var p := CStr(s)[..m];
    if m < n {
      assert Strncpied(s, n) + [NUL] == p + [NUL] + (Nuls(n - m - 1) + [NUL]);
      CStrStopsAtNul(p, Nuls(n - m - 1) + [NUL]);
    } else {
      assert Strncpied(s, n) + [NUL] == p + [NUL] + [];
      CStrStopsAtNul(p, []);
    }
  }

  /**
   * strncpy(dst, src.c_str(), n): copies characters until the first NUL of
   * src or n of them, then pads with NUL up to n; dst[n..] is not touched.
   */
  method Strncpy(dst: array<char>, src: string, n: int)
    requires 0 <= n <= dst.Length
    modifies dst
    ensures dst[..n] == Strncpied(src, n)
    ensures dst[n..] == old(dst[n..])
  {
    var i := 0;
    while i < n && i < |src| && src[i] != NUL
      invariant 0 <= i <= n && i <= |CStr(src)|
      invariant forall k :: 0 <= k < i ==> dst[k] == CStr(src)[k]
      invariant dst[n..] == old(dst[n..])
    {
      dst[i] := src[i];
      i := i + 1;
    }
    assert i == IMin(|CStr(src)|, n);
    while i < n
      invariant IMin(|CStr(src)|, n) <= i <= n
      invariant forall k :: 0 <= k < IMin(|CStr(src)|, n) ==> dst[k] == CStr(src)[k]
      invariant forall k :: IMin(|CStr(src)|, n) <= k < i ==> dst[k] == NUL
      invariant dst[n..] == old(dst[n..])
    {
      dst[i] := NUL;
      i := i + 1;
    }
    assert forall k :: 0 <= k < n ==> dst[..n][k] == Strncpied(src, n)[k];
  }

  // ------------------------------------------------------------- SafeCopyInfoString

  /** The 255 characters SafeCopyInfoString leaves: 254 strncpied ones and a terminator. */
  function InfoString(s: string): (r: string)
    ensures |r| == INFO_STRING_LEN && r[INFO_STRING_LEN - 1] == NUL
  {
    Strncpied(s, INFO_STRING_LEN - 1) + [NUL]
  }

  /** SafeCopyInfoString (and Library_GetName, _GetVersion, _GetBuildInfo through it): the whole buffer is written. */
  method SafeCopyInfoString(s: string, psz: array<char>)
    requires psz.Length == INFO_STRING_LEN
    modifies psz
    ensures psz[..] == InfoString(s)
  {
    Strncpy(psz, s, INFO_STRING_LEN - 1);
    psz[INFO_STRING_LEN - 1] := NUL;
    assert psz[..] == psz[..INFO_STRING_LEN - 1] + [psz[INFO_STRING_LEN - 1]];
  }

  /**
   * The info string always reads back as a C string: the first 254
   * characters of the source's C string, or all of it when shorter, and
   * the buffer holds NUL after them.
   */
  lemma InfoStringReadsBack(s: string)
    ensures CStr(InfoString(s)) == CStr(s)[..IMin(|CStr(s)|, INFO_STRING_LEN - 1)]
    ensures forall i :: IMin(|CStr(s)|, INFO_STRING_LEN - 1) <= i < INFO_STRING_LEN ==> InfoString(s)[i] == NUL
  {
    ReadBack(s, INFO_STRING_LEN - 1);
  }

  // ------------------------------------------------------------- Metadata

  /** A metadata entry's value by its OpenVDB type; any other type is OtherMeta. */
  datatype MetaValue = StringMeta(text: string) | FloatMeta(f: real) | VectorMeta(v: Vec3) | OtherMeta

  /** A grid's MetaMap: the names in iteration order and the value under each name. */
  datatype MetaMap = MetaMap(names: seq<string>, entries: map<string, MetaValue>)

  /**
   * VdbMeta::strNameAt: the name the iteration reaches at nIndex; an index
   * the iteration never reaches, negative ones included, gives "".
   */
  function NameAt(m: MetaMap, nIndex: int): (r: string)
    ensures 0 <= nIndex < |m.names| ==> r == m.names[nIndex]
    ensures !(0 <= nIndex < |m.names|) ==> r == ""
  {
    if 0 <= nIndex < |m.names| then m.names[nIndex] else ""
  }

  /** VdbMeta::bGetValueAt for strings: nothing for a missing name or a value of another type. */
  function StringAt(m: MetaMap, name: string): (r: Option<string>)
    ensures r.Some? <==> name in m.entries && m.entries[name].StringMeta?
    ensures r.Some? ==> r.value == m.entries[name].text
  {
    if name in m.entries && m.entries[name].StringMeta? then Some(m.entries[name].text) else None
  }

  /** The (int32_t) cast of a length: two's-complement wrap modulo 2^32. */
  function Int32Of(n: nat): (r: int)
    ensures INT32_MIN <= r <= INT32_MAX
    ensures n <= INT32_MAX ==> r == n
  {
    var u := n % 0x1_0000_0000;
    if u <= INT32_MAX then u else u - 0x1_0000_0000
  }

  /**
   * Metadata_bGetNameAt: false, with nothing written, for an index at or
   * past the count; otherwise the name strncpied into psz[0..nMax-1] and a
   * terminator at psz[nMax-1]. A negative index passes the check and writes
   * the empty name.
   */
  method GetNameAt(m: MetaMap, nIndex: int, psz: array<char>, nMaxStringLen: int) returns (ok: bool)
    requires 1 <= nMaxStringLen <= psz.Length
    modifies psz
    ensures ok <==> nIndex < |m.names|
    ensures !ok ==> psz[..] == old(psz[..])
    ensures ok ==> psz[..nMaxStringLen] == Strncpied(NameAt(m, nIndex), nMaxStringLen - 1) + [NUL]
    ensures ok ==> psz[nMaxStringLen..] == old(psz[nMaxStringLen..])
  {
    if nIndex >= |m.names| {
      return false;
    }
    var s := NameAt(m, nIndex);
    CopyTerminated(psz, s, nMaxStringLen);
    ok := true;
  }

  /** strncpy(psz, s.c_str(), nMax - 1) followed by psz[nMax - 1] = 0. */
  method CopyTerminated(psz: array<char>, s: string, nMaxStringLen: int)
    requires 1 <= nMaxStringLen <= psz.Length
    modifies psz
    ensures psz[..nMaxStringLen] == Strncpied(s, nMaxStringLen - 1) + [NUL]
    ensures psz[nMaxStringLen..] == old(psz[nMaxStringLen..])
  {
    Strncpy(psz, s, nMaxStringLen - 1);
    psz[nMaxStringLen - 1] := NUL;
    assert psz[..nMaxStringLen] == psz[..nMaxStringLen - 1] + [psz[nMaxStringLen - 1]];
  }

  /** A negative index gives true and a buffer that reads back as the empty string. */
  lemma NegativeIndexGivesEmptyName(m: MetaMap, nIndex: int, nMaxStringLen: int)
    requires nIndex < 0 && 1 <= nMaxStringLen
    ensures nIndex < |m.names|
    ensures CStr(Strncpied(NameAt(m, nIndex), nMaxStringLen - 1) + [NUL]) == ""
  {
    ReadBack(NameAt(m, nIndex), nMaxStringLen - 1);
  }

  /** Metadata_nStringLengthAt: 0 for a missing name or a non-string value, else the length cast to int32. */
  function StringLengthAt(m: MetaMap, name: string): (r: int)
    ensures StringAt(m, name).None? ==> r == 0
    ensures StringAt(m, name).Some? ==> r == Int32Of(|StringAt(m, name).value|)
  {
    match StringAt(m, name)
    case None => 0
    case Some(s) => Int32Of(|s|)
  }

  /**
   * Metadata_bGetStringAt: false for a missing name or a non-string value,
   * with the buffer untouched; otherwise the string strncpied into
   * psz[0..nMax-1] and a terminator at psz[nMax-1].
   */
  method GetStringAt(m: MetaMap, name: string, psz: array<char>, nMaxStringLen: int) returns (ok: bool)
    requires 1 <= nMaxStringLen <= psz.Length
    modifies psz
    ensures ok <==> StringAt(m, name).Some?
    ensures !ok ==> psz[..] == old(psz[..])
    ensures ok ==> psz[..nMaxStringLen] == Strncpied(StringAt(m, name).value, nMaxStringLen - 1) + [NUL]
    ensures ok ==> psz[nMaxStringLen..] == old(psz[nMaxStringLen..])
  {
    var found := StringAt(m, name);
    if found.None? {
      return false;
    }
    CopyTerminated(psz, found.value, nMaxStringLen);
    ok := true;
  }

  /**
   * The intended calling sequence: a buffer of nStringLengthAt + 1
   * characters receives the whole string, provided it holds no NUL and its
   * length fits an int32 with room for the terminator.
   */
  lemma SizedBufferGetsWholeString(m: MetaMap, name: string)
    requires StringAt(m, name).Some?
    requires NulFree(StringAt(m, name).value) && |StringAt(m, name).value| < INT32_MAX
    ensures var s := StringAt(m, name).value;
      CStr(Strncpied(s, StringLengthAt(m, name)) + [NUL]) == s
  {
    var s := StringAt(m, name).value;
    CStrOfNulFree(s);
    ReadBack(s, |s|);
  }

  /** A buffer too short for the string still reads back as a C string: the first nMax - 1 characters. */
  lemma ShortBufferTruncates(s: string, nMaxStringLen: int)
    requires NulFree(s) && 1 <= nMaxStringLen <= |s|
    ensures CStr(Strncpied(s, nMaxStringLen - 1) + [NUL]) == s[..nMaxStringLen - 1]
  {
    CStrOfNulFree(s);
    ReadBack(s, nMaxStringLen - 1);
  }

  // ------------------------------------------------------------- Unit conversion

  /** The float -> int conversion of each coordinate that fToMM(int) forces. */
  function Truncated(v: Vec3): Coord
  {
    Coord(Trunc(v.x), Trunc(v.y), Trunc(v.z))
  }

  function AsVec(c: Coord): Vec3
  {
    Vec3(c.x as real, c.y as real, c.z as real)
  }

  /** Library_VoxelsToMm per axis: fToMM of the truncated voxel coordinate. */
  function VoxelsToMm(v: Vec3, vs: VoxelSize): Vec3
  {
    VecToMM(Truncated(v), vs)
  }

  /** Library_MmToVoxels per axis: iToVoxels, stored back as a float. */
  function MmToVoxels(v: Vec3, vs: VoxelSize): Vec3
  {
    AsVec(XyzToVoxels(v, vs))
  }

  /** Voxel coordinates with a fractional part lose it before scaling: 0.9 voxels is 0 mm. */
  lemma VoxelsToMmDropsFraction(v: Vec3, vs: VoxelSize)
    ensures VoxelsToMm(v, vs) == VoxelsToMm(AsVec(Truncated(v)), vs)
    ensures VoxelsToMm(Vec3(0.9, -0.9, 1.5), vs) == Vec3(0.0, 0.0, vs)
  {
    var t := Truncated(v);
    assert Trunc(t.x as real) == t.x && Trunc(t.y as real) == t.y && Trunc(t.z as real) == t.z;
  }

  /** Integral voxel coordinates survive the trip to mm and back. */
  lemma VoxelsMmRoundTrip(c: Coord, vs: VoxelSize)
    ensures MmToVoxels(VoxelsToMm(AsVec(c), vs), vs) == AsVec(c)
  {
    assert Trunc(c.x as real) == c.x && Trunc(c.y as real) == c.y && Trunc(c.z as real) == c.z;
    assert Truncated(AsVec(c)) == c;
    ToMMRoundTrip(c, vs);
  }

  /** MmToVoxels always lands on a voxel: every coordinate is a whole number. */
  lemma MmToVoxelsIntegral(v: Vec3, vs: VoxelSize)
    ensures var r := MmToVoxels(v, vs);
      r.x == r.x.Floor as real && r.y == r.y.Floor as real && r.z == r.z.Floor as real
  {
  }

  /** Library_VoxelsToMm: writes the converted coordinate to the output; the voxel size is the library's. */
  method LibraryVoxelsToMm(lib: Library, voxelCoordinate: Vec3) returns (mmCoordinate: Vec3)
    ensures mmCoordinate == VoxelsToMm(voxelCoordinate, lib.VoxelSizeMM())
  {
    var vs := lib.VoxelSizeMM();
    mmCoordinate := Vec3(FToMM(Trunc(voxelCoordinate.x), vs), FToMM(Trunc(voxelCoordinate.y), vs), FToMM(Trunc(voxelCoordinate.z), vs));
  }

  /** Library_MmToVoxels: writes the converted coordinate to the output; the voxel size is the library's. */
  method LibraryMmToVoxels(lib: Library, mmCoordinate: Vec3) returns (voxelCoordinate: Vec3)
    ensures voxelCoordinate == MmToVoxels(mmCoordinate, lib.VoxelSizeMM())
  {
    var vs := lib.VoxelSizeMM();
    voxelCoordinate := Vec3(IToVoxels(mmCoordinate.x, vs) as real, IToVoxels(mmCoordinate.y, vs) as real, IToVoxels(mmCoordinate.z, vs) as real);
  }

  // ------------------------------------------------------------- Voxels_GetSlice

  /** Voxels_GetSlice: the background value to its output, and the slice into the caller's buffer. */
  method VoxelsGetSlice(v: Voxels, nZSlice: int, buffer: array<real>) returns (background: real)
    requires v.Valid() && SliceLength(ActiveBox(v.grid)) <= buffer.Length
    modifies buffer
    ensures background == v.grid.background
    ensures SliceHolds(v.grid, ActiveBox(v.grid), nZSlice + ActiveBox(v.grid).lo.z, buffer[..])
    ensures buffer[SliceLength(ActiveBox(v.grid))..] == old(buffer[SliceLength(ActiveBox(v.grid))..])
  {
    background := v.grid.background;
    v.Slice(nZSlice, buffer);
  }
}
