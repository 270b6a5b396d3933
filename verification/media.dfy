/** Device naming and the usability rule of `getMediaInfo` (Linux build). */
module Media {
  import opened Common
  import opened CText

  /** `media_t`: the device path, the path without its "/dev/" prefix, the
      size and whether the device may be wiped. */
  datatype Media = Media(name: string, short: string, size: nat, usable: bool)

  /** What `getMediaInfo` returns when the device cannot be probed. */
  const Unusable := Media("", "", 0, false)

  /** The host, as `getMediaInfo` sees it: opening a path read-only and
      issuing the BLKGETSIZE ioctl on it yields None when either fails, and
      otherwise the number the ioctl stores, which Linux defines as the
      device size in 512-byte sectors. */
  datatype ProbeOracle = ProbeOracle(blkGetSize: string -> Option<nat>)

  const SectorBytes: nat := 512

  const DevDir := "/dev/"

  /** `mediaList` on Linux: a five-slot array with four initialisers, so the
      last slot is a null pointer. */
  const MediaList: seq<Option<string>> := [Some("hd"), Some("sd"), Some("sg"), Some("st"), None]

  /** The text `sprintf("%s")` produces for a table slot; for the null slot
      this is what the GNU C library prints (passing a null pointer for %s is
      undefined behaviour in C). */
  function EntryText(k: nat): string
    requires k < |MediaList|
  {
    match MediaList[k]
    case Some(p) => p
    case None => "(null)"
  }

  /** `'a' + i` printed with `%c`: the argument is converted to `unsigned
      char`, so the letter wraps around after 256 steps. */
  function Letter(i: nat): char {
    ((97 + i) % 256) as char
  }

  /** The path `buildMediaList` probes for slot `k` and letter index `i`. */
  function ProbeName(k: nat, i: nat): (name: string)
    requires k < |MediaList|
    ensures |name| == |DevDir| + |EntryText(k)| + 1
  {
    DevDir + EntryText(k) + [Letter(i)]
  }

  /** `nameshort`: the path with its first five characters dropped. */
  function ShortName(media: string): (short: string)
    requires |DevDir| <= |media|
    ensures |short| == |media| - |DevDir|
    ensures media[..|DevDir|] == DevDir ==> DevDir + short == media
  {
    media[|DevDir|..]
  }

  /** The short name of a probed path is the table entry followed by the
      letter, and putting "/dev/" back in front gives the path again. */
  lemma ProbeNameShort(k: nat, i: nat)
    requires k < |MediaList|
    ensures ShortName(ProbeName(k, i)) == EntryText(k) + [Letter(i)]
    ensures DevDir + ShortName(ProbeName(k, i)) == ProbeName(k, i)
  {
    assert ProbeName(k, i)[..|DevDir|] == DevDir;
  }

  /** `getMediaInfo`. A device that cannot be opened or sized comes back
      unusable with empty names; otherwise it carries its path and short
      name and is usable exactly when its size is positive. As written, the
      size is the BLKGETSIZE count itself; the corrected build converts the
      sector count to bytes. */
  function GetMediaInfo(media: string, probe: ProbeOracle, b: Build): (m: Media)
    requires |DevDir| <= |media|
    ensures m.usable <==> probe.blkGetSize(media).Some? && probe.blkGetSize(media).value > 0
    ensures m.usable <==> m.size > 0
    ensures probe.blkGetSize(media).None? ==> m == Unusable
    ensures probe.blkGetSize(media).Some? ==> m.name == media && media[..|DevDir|] + m.short == media
    ensures probe.blkGetSize(media).Some? && b == AsWritten ==> m.size == probe.blkGetSize(media).value
    ensures probe.blkGetSize(media).Some? && b == Corrected ==> m.size == probe.blkGetSize(media).value * SectorBytes
  {
    match probe.blkGetSize(media)
    case None => Unusable
    case Some(count) =>
      var size := if b == Corrected then count * SectorBytes else count;
      Media(media, ShortName(media), size, size > 0)
  }
}
