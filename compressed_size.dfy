/**
 * The size report of src/shared/compressed-size.js: how one size is
 * rendered and coloured, and which of the gzip and brotli lines exist.
 * `prettyBytes` and the kleur colours are outside the model: they are
 * parameters.
 */
module CompressedSize {
  import opened Wrappers
  import opened Seqs

  // ---------------------------------------------------------------------------
  // decimal numerals (`${size}` for a non-negative integer)

  function DigitChar(d: nat): char
    requires d < 10
  {
    ('0' as int + d) as char
  }

  /** The decimal numeral of `n`, as a template literal prints it. */
  function NatToString(n: nat): (s: string)
    ensures |s| >= 1
    ensures forall i :: 0 <= i < |s| ==> '0' <= s[i] <= '9'
    ensures n > 0 ==> s[0] != '0'
  {
    if n < 10 then [DigitChar(n)] else NatToString(n / 10) + [DigitChar(n % 10)]
  }

  /** The number a string of decimal digits denotes. */
  function DecimalValue(s: string): nat
    requires forall i :: 0 <= i < |s| ==> '0' <= s[i] <= '9'
  {
    if |s| == 0 then 0 else DecimalValue(s[..|s| - 1]) * 10 + (s[|s| - 1] as int - '0' as int)
  }

  /** The numeral reads back as the number it was printed from. */
  lemma {:induction false} NatToStringValue(n: nat)
    ensures DecimalValue(NatToString(n)) == n
  {
    if n >= 10 {
      NatToStringValue(n / 10);
      var s := NatToString(n);
      assert s[..|s| - 1] == NatToString(n / 10);
    }
  }

  // ---------------------------------------------------------------------------
  // formatSize

  datatype Colour = Green | Yellow | Red

  /** The colour band of a size: green below 75000, red above 175000, yellow in between (both ends included). */
  function Band(size: nat): (c: Colour)
    ensures c == Green <==> size < 75000
    ensures c == Red <==> size > 175000
    ensures c == Yellow <==> 75000 <= size <= 175000
  {
    if size < 75000 then Green else if size > 175000 then Red else Yellow
  }

  /** The size text before colouring: `"<size> B"` below 5000, `prettyBytes(size)` from 5000 on. */
  function Pretty(size: nat, prettyBytes: nat -> string): (r: string)
    ensures size < 5000 ==> r == NatToString(size) + " B"
    ensures size >= 5000 ==> r == prettyBytes(size)
  {
    if size < 5000 then NatToString(size) + " B" else prettyBytes(size)
  }

  /** A size below 5000 is printed exactly, and can be read back from the text. */
  lemma SmallSizeReadsBack(size: nat, prettyBytes: nat -> string)
    requires size < 5000
    ensures var t := Pretty(size, prettyBytes);
      EndsWith(t, " B") && DecimalValue(t[..|t| - 2]) == size
  {
    var t := Pretty(size, prettyBytes);
    assert t[..|t| - 2] == NatToString(size);
    NatToStringValue(size);
  }

  /**
   * `formatSize(size, filename, type, onlySize)`: `"<type>: <coloured>"` with
   * `onlySize`, `"<filename><type> (<coloured>)"` without.
   */
  function FormatSize(size: nat, filename: string, kind: string, onlySize: bool,
                      prettyBytes: nat -> string, paint: (Colour, string) -> string): (r: string)
    ensures onlySize ==> r == kind + ": " + paint(Band(size), Pretty(size, prettyBytes))
    ensures !onlySize ==> r == filename + kind + " (" + paint(Band(size), Pretty(size, prettyBytes)) + ")"
  {
    var pretty := if size < 5000 then NatToString(size) + " B" else prettyBytes(size);
    var color := if size < 75000 then Green else if size > 175000 then Red else Yellow;
    if onlySize then kind + ": " + paint(color, pretty) else filename + kind + " (" + paint(color, pretty) + ")"
  }

  // ---------------------------------------------------------------------------
  // getSizeInfo

  /** The three lines of the size report; `None` is `null`. */
  datatype SizeInfo = SizeInfo(base: string, gzip: Option<string>, brotli: Option<string>)

  /**
   * `getSizeInfo(code, filename)` once the compressed sizes are known; a
   * failed measurement is `None`. A line exists only for a truthy size.
   */
  function GetSizeInfo(codeLength: nat, filename: string, gzip: Option<nat>, brotli: Option<nat>,
                       prettyBytes: nat -> string, paint: (Colour, string) -> string): (r: SizeInfo)
    ensures r.base == FormatSize(codeLength, filename, "", false, prettyBytes, paint)
    ensures r.gzip.Some? <==> gzip.Some? && gzip.value > 0
    ensures r.gzip.Some? ==> r.gzip.value == FormatSize(gzip.value, filename, "gzip", true, prettyBytes, paint)
    ensures r.brotli.Some? <==> brotli.Some? && brotli.value > 0
    ensures r.brotli.Some? ==> r.brotli.value == FormatSize(brotli.value, filename, "brotli", true, prettyBytes, paint)
  {
    SizeInfo(
      FormatSize(codeLength, filename, "", false, prettyBytes, paint),
      if gzip.Some? && gzip.value != 0 then Some(FormatSize(gzip.value, filename, "gzip", true, prettyBytes, paint)) else None,
      if brotli.Some? && brotli.value != 0 then Some(FormatSize(brotli.value, filename, "brotli", true, prettyBytes, paint)) else None)
  }
}
