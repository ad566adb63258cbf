/**
 * The archive-set summary shown in seven labels (signal_headers). The
 * numbers' exact text is floating-point formatting and is not modelled: a
 * label records whether a value is appended and, for byte sizes, the unit
 * the value is scaled to.
 */
module HeaderSummary {
  import opened Engine

  datatype Unit = Bytes | Kbytes | Mbytes | Gbytes

  /** The number of bytes one `u` stands for. */
  function Scale(u: Unit): nat {
    match u
    case Bytes => 1
    case Kbytes => 1024
    case Mbytes => 1024 * 1024
    case Gbytes => 1024 * 1024 * 1024
  }

  /**
   * The unit a byte size is shown in: the largest unit not above the size,
   * so that the scaled value lies in [1, 1024) except in gigabytes, which
   * are not bounded; sizes below 1024 (including negative ones) stay in bytes.
   */
  function UnitOf(size: int): (u: Unit)
    ensures size < 1024 ==> u == Bytes
    ensures size >= 1024 ==> Scale(u) <= size && (u != Gbytes ==> size < 1024 * Scale(u))
  {
    if size < 1024 then Bytes
    else if size < 1024 * 1024 then Kbytes
    else if size < 1024 * 1024 * 1024 then Mbytes
    else Gbytes
  }

  /** The value appended after a label's fixed text, if any. */
  datatype LabelValue =
    | LabelOnly
    | WithText(text: string)
    | WithCount(count: int)
    | WithSize(size: int, unit: Unit)

  /** The seven summary labels; their fixed texts are "Set ID: ", "Block size: ", ... */
  datatype HeaderLabels = HeaderLabels(
    setId: LabelValue,
    blockSize: LabelValue,
    chunkSize: LabelValue,
    dataBlocks: LabelValue,
    dataSize: LabelValue,
    recoverableFiles: LabelValue,
    otherFiles: LabelValue)

  /** Label `v` shows the count `n`, or nothing when `n` is the -1 sentinel. */
  predicate ShowsCount(v: LabelValue, n: int) {
    (v == LabelOnly <==> n == -1) && (v != LabelOnly ==> v == WithCount(n))
  }

  /** Label `v` shows byte size `n` in its unit tier, or nothing for -1. */
  predicate ShowsSize(v: LabelValue, n: int) {
    (v == LabelOnly <==> n == -1) && (v != LabelOnly ==> v.WithSize? && v.size == n && v.unit == UnitOf(n))
  }

  /** The text for a byte-size field. */
  function SizeValue(n: int): LabelValue {
    if n != -1 then WithSize(n, UnitOf(n)) else LabelOnly
  }

  /** The text for a plain count field. */
  function CountValue(n: int): LabelValue {
    if n != -1 then WithCount(n) else LabelOnly
  }

  /**
   * The seven labels for one header: every label shows its own field, and
   * a field that is absent leaves its label with nothing appended.
   */
  function Summarize(h: ParHeaders): (l: HeaderLabels)
    ensures (l.setId == LabelOnly <==> |h.setId| == 0) && (l.setId != LabelOnly ==> l.setId == WithText(h.setId))
    ensures ShowsSize(l.blockSize, h.blockSize)
    ensures ShowsCount(l.chunkSize, h.chunkSize)
    ensures ShowsCount(l.dataBlocks, h.dataBlocks)
    ensures ShowsSize(l.dataSize, h.dataSize)
    ensures ShowsCount(l.recoverableFiles, h.recoverableFiles)
    ensures ShowsCount(l.otherFiles, h.otherFiles)
  {
    HeaderLabels(
      setId := if |h.setId| != 0 then WithText(h.setId) else LabelOnly,
      blockSize := SizeValue(h.blockSize),
      chunkSize := CountValue(h.chunkSize),
      dataBlocks := CountValue(h.dataBlocks),
      dataSize := SizeValue(h.dataSize),
      recoverableFiles := CountValue(h.recoverableFiles),
      otherFiles := CountValue(h.otherFiles))
  }

  /** Any unit with the tier property of UnitOf is the one UnitOf picks. */
  lemma UnitTierIsUnique(size: int, u: Unit)
    requires size >= 1024 && Scale(u) <= size && (u != Gbytes ==> size < 1024 * Scale(u))
    ensures u == UnitOf(size)
  {
  }
}
