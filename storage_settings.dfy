/** `StorageSettings.MaxStorageDisplay` (server/src/Cloudy.Infrastructure/Settings/StorageSettings.cs):
    the configured maximum in whole mebibytes, as text. */
module StorageSettings {
  import opened Wrappers
  import opened Text
  import opened Quota

  /** `$"{MaxStorageBytes / (1024 * 1024)}MB"`: a C# `long` division, truncating toward zero. */
  function MaxStorageDisplay(maxStorageBytes: Int64): string {
    IntToString(TruncDiv(maxStorageBytes, MIB)) + "MB"
  }

  /** The number shown, read back from the text. */
  function DisplayedMegabytes(display: string): Option<int> {
    if |display| >= 2 && display[|display| - 2..] == "MB" then ParseDecimal(display[..|display| - 2]) else None
  }

  /** The text shows the byte count divided by 1 MiB, rounded toward zero. */
  lemma DisplayShowsTruncatedMegabytes(maxStorageBytes: Int64)
    ensures DisplayedMegabytes(MaxStorageDisplay(maxStorageBytes)) == Some(TruncDiv(maxStorageBytes, MIB))
  {
    var s := MaxStorageDisplay(maxStorageBytes);
    var digits := IntToString(TruncDiv(maxStorageBytes, MIB));
    assert s[..|s| - 2] == digits;
    assert s[|s| - 2..] == "MB";
    IntToStringRoundTrip(TruncDiv(maxStorageBytes, MIB));
  }

  /** Anything under 1 MiB, in either direction, shows as "0MB". */
  lemma BelowOneMebibyteShowsZero(maxStorageBytes: Int64)
    requires -MIB < maxStorageBytes < MIB
    ensures MaxStorageDisplay(maxStorageBytes) == "0MB"
  {
    assert TruncDiv(maxStorageBytes, MIB) == 0;
  }

  /** A whole number of mebibytes shows as exactly that number. */
  lemma WholeMebibytesShowExactly(k: int)
    requires -0x8000_0000_0000_0000 <= k * MIB <= 0x7FFF_FFFF_FFFF_FFFF
    ensures DisplayedMegabytes(MaxStorageDisplay(k * MIB)) == Some(k)
  {
    DisplayShowsTruncatedMegabytes(k * MIB);
    if k >= 0 {
      assert TruncDiv(k * MIB, MIB) == k;
    } else {
      assert (-(k * MIB)) == (-k) * MIB;
      assert TruncDiv(k * MIB, MIB) == k;
    }
  }

  /** A larger maximum never shows a smaller number. */
  lemma DisplayMonotone(a: Int64, b: Int64)
    requires a <= b
    ensures DisplayedMegabytes(MaxStorageDisplay(a)).value <= DisplayedMegabytes(MaxStorageDisplay(b)).value
  {
    DisplayShowsTruncatedMegabytes(a);
    DisplayShowsTruncatedMegabytes(b);
    TruncDivMonotone(a, b, MIB);
  }
}
