/** The tables between DRM fourcc codes, wl_shm codes and PipeWire video formats. */
module Formats {

  /** A DRM fourcc code: four characters, the first in the low byte. */
  function FourCC(s: string): int
    requires |s| == 4
  {
    s[0] as int + 0x100 * s[1] as int + 0x1_0000 * s[2] as int + 0x100_0000 * s[3] as int
  }

  const INVALID := 0
  const ARGB8888 := FourCC("AR24")
  const XRGB8888 := FourCC("XR24")
  const RGBA8888 := FourCC("RA24")
  const RGBX8888 := FourCC("RX24")
  const ABGR8888 := FourCC("AB24")
  const XBGR8888 := FourCC("XB24")
  const BGRA8888 := FourCC("BA24")
  const BGRX8888 := FourCC("BX24")
  const NV12 := FourCC("NV12")
  const XRGB2101010 := FourCC("XR30")
  const XBGR2101010 := FourCC("XB30")
  const RGBX1010102 := FourCC("RX30")
  const BGRX1010102 := FourCC("BX30")
  const ARGB2101010 := FourCC("AR30")
  const ABGR2101010 := FourCC("AB30")
  const RGBA1010102 := FourCC("RA30")
  const BGRA1010102 := FourCC("BA30")
  const BGR888 := FourCC("BG24")
  const RGB888 := FourCC("RG24")

  const WL_SHM_ARGB8888 := 0
  const WL_SHM_XRGB8888 := 1

  datatype PwFormat =
    | PwBGRA | PwBGRx | PwABGR | PwxBGR | PwRGBA | PwRGBx | PwARGB | PwxRGB | PwNV12
    | PwxRGB210 | PwxBGR210 | PwRGBx102 | PwBGRx102 | PwARGB210 | PwABGR210 | PwRGBA102 | PwBGRA102
    | PwRGB | PwBGR | PwUnknown

  function PwFromDrm(f: int): PwFormat {
    if f == ARGB8888 then PwBGRA
    else if f == XRGB8888 then PwBGRx
    else if f == RGBA8888 then PwABGR
    else if f == RGBX8888 then PwxBGR
    else if f == ABGR8888 then PwRGBA
    else if f == XBGR8888 then PwRGBx
    else if f == BGRA8888 then PwARGB
    else if f == BGRX8888 then PwxRGB
    else if f == NV12 then PwNV12
    else if f == XRGB2101010 then PwxRGB210
    else if f == XBGR2101010 then PwxBGR210
    else if f == RGBX1010102 then PwRGBx102
    else if f == BGRX1010102 then PwBGRx102
    else if f == ARGB2101010 then PwARGB210
    else if f == ABGR2101010 then PwABGR210
    else if f == RGBA1010102 then PwRGBA102
    else if f == BGRA1010102 then PwBGRA102
    else if f == BGR888 then PwRGB
    else if f == RGB888 then PwBGR
    else PwUnknown
  }

  function DrmFromPw(p: PwFormat): int {
    match p
    case PwBGRA => ARGB8888
    case PwBGRx => XRGB8888
    case PwABGR => RGBA8888
    case PwxBGR => RGBX8888
    case PwRGBA => ABGR8888
    case PwRGBx => XBGR8888
    case PwARGB => BGRA8888
    case PwxRGB => BGRX8888
    case PwNV12 => NV12
    case PwxRGB210 => XRGB2101010
    case PwxBGR210 => XBGR2101010
    case PwRGBx102 => RGBX1010102
    case PwBGRx102 => BGRX1010102
    case PwARGB210 => ARGB2101010
    case PwABGR210 => ABGR2101010
    case PwRGBA102 => RGBA1010102
    case PwBGRA102 => BGRA1010102
    case PwRGB => BGR888
    case PwBGR => RGB888
    case PwUnknown => INVALID
  }

  function StripAlpha(p: PwFormat): PwFormat {
    match p
    case PwBGRA => PwBGRx
    case PwABGR => PwxBGR
    case PwRGBA => PwRGBx
    case PwARGB => PwxRGB
    case PwARGB210 => PwxRGB210
    case PwABGR210 => PwxBGR210
    case PwRGBA102 => PwRGBx102
    case PwBGRA102 => PwBGRx102
    case _ => PwUnknown
  }

  /** Bytes per pixel, or -1. */
  function Bpp(f: int): int {
    if f == ARGB8888 || f == XRGB8888 || f == RGBA8888 || f == RGBX8888
       || f == ABGR8888 || f == XBGR8888 || f == BGRA8888 || f == BGRX8888
       || f == XRGB2101010 || f == XBGR2101010 || f == RGBX1010102 || f == BGRX1010102
       || f == ARGB2101010 || f == ABGR2101010 || f == RGBA1010102 || f == BGRA1010102
    then 4
    else if f == BGR888 || f == RGB888 then 3
    else -1
  }

  function ShmFromDrm(f: int): int {
    if f == ARGB8888 then WL_SHM_ARGB8888 else if f == XRGB8888 then WL_SHM_XRGB8888 else f
  }

  function DrmFromShm(f: int): int {
    if f == WL_SHM_ARGB8888 then ARGB8888 else if f == WL_SHM_XRGB8888 then XRGB8888 else f
  }

  predicate Known(f: int) {
    PwFromDrm(f) != PwUnknown
  }

  /** The codes as numbers; every known one is at least 0x30000000. */
  lemma Codes()
    ensures ARGB8888 == 0x34325241 && XRGB8888 == 0x34325258 && RGBA8888 == 0x34324152 && RGBX8888 == 0x34325852
    ensures ABGR8888 == 0x34324241 && XBGR8888 == 0x34324258 && BGRA8888 == 0x34324142 && BGRX8888 == 0x34325842
    ensures NV12 == 0x3231564e && BGR888 == 0x34324742 && RGB888 == 0x34324752
    ensures XRGB2101010 == 0x30335258 && XBGR2101010 == 0x30334258
    ensures RGBX1010102 == 0x30335852 && BGRX1010102 == 0x30335842
    ensures ARGB2101010 == 0x30335241 && ABGR2101010 == 0x30334241
    ensures RGBA1010102 == 0x30334152 && BGRA1010102 == 0x30334142
  {
  }

  lemma KnownCodesAreLarge(f: int)
    ensures Known(f) ==> f >= 0x3000_0000
  {
    Codes();
  }

  /** A format PipeWire knows translates back to the fourcc it came from, and the other way round. */
  lemma PwRoundTrip(f: int, p: PwFormat)
    ensures Known(f) ==> DrmFromPw(PwFromDrm(f)) == f
    ensures PwFromDrm(DrmFromPw(p)) == p
    ensures DrmFromPw(p) == INVALID <==> p == PwUnknown
  {
    Codes();
  }

  /** wl_shm and fourcc codes translate back and forth except for the two numbers wl_shm reassigns. */
  lemma ShmRoundTrip(f: int)
    ensures DrmFromShm(ShmFromDrm(f)) == f <==> f != WL_SHM_ARGB8888 && f != WL_SHM_XRGB8888
    ensures ShmFromDrm(DrmFromShm(f)) == f <==> f != ARGB8888 && f != XRGB8888
    ensures DrmFromShm(0) == FourCC("AR24") && DrmFromShm(1) == FourCC("XR24")
    ensures f < 0 || f > 1 ==> DrmFromShm(f) == f
  {
    Codes();
  }

  // ----- the tables, from the names of the formats -----

  /** The channels in SPA's name of a format, X for an unused channel. */
  function PwName(p: PwFormat): string {
    match p
    case PwBGRA => "BGRA" case PwBGRx => "BGRX" case PwABGR => "ABGR" case PwxBGR => "XBGR"
    case PwRGBA => "RGBA" case PwRGBx => "RGBX" case PwARGB => "ARGB" case PwxRGB => "XRGB"
    case PwxRGB210 => "XRGB" case PwxBGR210 => "XBGR" case PwRGBx102 => "RGBX" case PwBGRx102 => "BGRX"
    case PwARGB210 => "ARGB" case PwABGR210 => "ABGR" case PwRGBA102 => "RGBA" case PwBGRA102 => "BGRA"
    case PwRGB => "RGB" case PwBGR => "BGR"
    case PwNV12 => "NV12"
    case PwUnknown => ""
  }

  predicate TenBit(p: PwFormat) {
    p in {PwxRGB210, PwxBGR210, PwRGBx102, PwBGRx102, PwARGB210, PwABGR210, PwRGBA102, PwBGRA102}
  }

  /** A fourcc that ends in the depth, "24" or "30". */
  function FourCCOf(first: char, second: char, tenBit: bool): int {
    first as int + 0x100 * second as int + if tenBit then 0x3033_0000 else 0x3432_0000
  }

  /** The channels as DRM names them, from the most significant bit of a little-endian word: SPA's
      names are in memory order, but for its ten-bit formats. */
  function DrmChannel(p: PwFormat, i: nat): char
    requires i < |PwName(p)|
  {
    if TenBit(p) then PwName(p)[i] else PwName(p)[|PwName(p)| - 1 - i]
  }

  /** A fourcc is the first colour and the alpha or unused channel, in their order, and the depth;
      without such a channel the first two colours. */
  lemma TableFollowsNames(p: PwFormat)
    requires p != PwUnknown && p != PwNV12
    ensures |PwName(p)| == 3 ==> DrmFromPw(p) == FourCCOf(DrmChannel(p, 0), DrmChannel(p, 1), false)
    ensures |PwName(p)| in {3, 4}
    ensures |PwName(p)| == 4 ==>
      DrmFromPw(p) == FourCCOf(DrmChannel(p, 0), DrmChannel(p, if DrmChannel(p, 0) in "AX" then 1 else 3), TenBit(p))
  {
    Codes();
  }

  /** One byte for each channel of the eight-bit formats, four for the ten-bit ones; formats of
      several planes and unknown ones have no size. */
  lemma BppFollowsNames(p: PwFormat)
    ensures Bpp(DrmFromPw(p)) ==
      if p == PwNV12 || p == PwUnknown then -1 else if TenBit(p) then 4 else |PwName(p)|
  {
    Codes();
  }

  /** Dropping alpha renames that channel and keeps the others, and is for formats that have it. */
  lemma StripAlphaRenames(p: PwFormat)
    ensures StripAlpha(p) != PwUnknown <==> 'A' in PwName(p)
    ensures StripAlpha(p) != PwUnknown ==>
      && TenBit(StripAlpha(p)) == TenBit(p) && |PwName(StripAlpha(p))| == |PwName(p)|
      && forall i :: 0 <= i < |PwName(p)| ==>
           PwName(StripAlpha(p))[i] == if PwName(p)[i] == 'A' then 'X' else PwName(p)[i]
  {
    var n := PwName(p);
    assert |n| == 4 ==> n == [n[0], n[1], n[2], n[3]];
    assert |n| == 3 ==> n == [n[0], n[1], n[2]];
    if StripAlpha(p) != PwUnknown {
      assert n[0] == 'A' || n[3] == 'A';
    }
  }

  /** Dropping alpha happens once, keeps the pixel size, and never leaves the tables. */
  lemma StripAlphaKeepsSize(p: PwFormat)
    requires StripAlpha(p) != PwUnknown
    ensures Bpp(DrmFromPw(StripAlpha(p))) == Bpp(DrmFromPw(p)) == 4
    ensures StripAlpha(StripAlpha(p)) == PwUnknown
  {
    Codes();
  }

  /** Shared memory is supported for exactly the single-plane formats PipeWire knows. */
  lemma BppIffSinglePlane(f: int)
    ensures Bpp(f) > 0 <==> Known(f) && f != NV12
  {
    Codes();
  }
}
