/**
 * The ARPAbet-to-IPA table of `phoneme_map.py` and the element-wise conversion built on it.
 *
 * The table is a Python dict literal in which ten keys occur twice. Python keeps the LAST
 * definition of a repeated key. For nine of them both definitions agree; for the reduced vowel
 * `AH0` they do not (`ə` at line 9, `ʌ` at line 60), and the table as written maps `AH0` to `ʌ`.
 */
module PhonemeMap {
  import opened Wrappers

  /**
   * The table's entry for `p`, with Python's last-definition-wins rule made explicit. The entries
   * are grouped by key length (a key can only equal a `p` of its own length); within each group the
   * tests run from the last entry of the literal (line 100) back to the first (line 6), so the first
   * test that matches is the latest definition of `p`, and an earlier definition of a repeated key
   * is shadowed.
   */
  function LatestIpa(p: string): Option<string>
  {
    if |p| == 1 then
      if p == "S" then Some("s") else  // line 99, also defined at line 14
      if p == "Q" then Some("ʔ") else
      if p == "K" then Some("k") else  // line 96, also defined at line 30
      if p == "T" then Some("t") else  // line 95, also defined at line 12
      if p == "P" then Some("p") else  // line 94, also defined at line 31
      if p == "G" then Some("ɡ") else  // line 93, also defined at line 29
      if p == "D" then Some("d") else  // line 92, also defined at line 27
      if p == "B" then Some("b") else  // line 91, also defined at line 26
      if p == "Z" then Some("z") else
      if p == "Y" then Some("j") else
      if p == "W" then Some("w") else
      if p == "V" then Some("v") else
      if p == "R" then Some("r") else
      if p == "P" then Some("p") else  // line 31, also defined at line 94
      if p == "K" then Some("k") else  // line 30, also defined at line 96
      if p == "G" then Some("ɡ") else  // line 29, also defined at line 93
      if p == "F" then Some("f") else
      if p == "D" then Some("d") else  // line 27, also defined at line 92
      if p == "B" then Some("b") else  // line 26, also defined at line 91
      if p == "M" then Some("m") else
      if p == "S" then Some("s") else  // line 14, also defined at line 99
      if p == "L" then Some("l") else
      if p == "T" then Some("t") else  // line 12, also defined at line 95
      if p == "N" then Some("n") else
      None
    else if |p| == 2 then
      if p == "SH" then Some("ʃ") else  // line 100, also defined at line 43
      if p == "DX" then Some("ɾ") else
      if p == "UX" then Some("u") else
      if p == "IX" then Some("ɨ") else
      if p == "AX" then Some("ə") else
      if p == "ER" then Some("ɜː") else
      if p == "IY" then Some("i") else
      if p == "IH" then Some("ɪ") else
      if p == "AA" then Some("ɑ") else
      if p == "AO" then Some("ɔ") else
      if p == "EH" then Some("ɛ") else
      if p == "AE" then Some("æ") else
      if p == "AH" then Some("ʌ") else
      if p == "UH" then Some("ʊ") else
      if p == "UW" then Some("u") else
      if p == "AW" then Some("aʊ") else
      if p == "OW" then Some("oʊ") else
      if p == "EY" then Some("eɪ") else
      if p == "AY" then Some("aɪ") else
      if p == "ZH" then Some("ʒ") else
      if p == "CH" then Some("tʃ") else
      if p == "TH" then Some("θ") else
      if p == "SH" then Some("ʃ") else  // line 43, also defined at line 100
      if p == "NG" then Some("ŋ") else
      if p == "HH" then Some("h") else
      if p == "DH" then Some("ð") else
      if p == "JH" then Some("dʒ") else
      None
    else if |p| == 3 then
      if p == "AXR" then Some("ɚ") else
      if p == "IY2" then Some("i") else
      if p == "IY1" then Some("i") else
      if p == "IY0" then Some("i") else
      if p == "AA2" then Some("ɑ") else
      if p == "AA0" then Some("ɑ") else
      if p == "AO2" then Some("ɔ") else
      if p == "AO0" then Some("ɔ") else
      if p == "EH2" then Some("ɛ") else  // line 64, also defined at line 21
      if p == "EH0" then Some("ɛ") else
      if p == "AE2" then Some("æ") else
      if p == "AE0" then Some("æ") else
      if p == "AH0" then Some("ʌ") else  // line 60, also defined at line 9
      if p == "AH2" then Some("ʌ") else
      if p == "AH1" then Some("ʌ") else
      if p == "UH2" then Some("ʊ") else
      if p == "UH0" then Some("ʊ") else
      if p == "UW2" then Some("u") else
      if p == "UW0" then Some("u") else
      if p == "AW2" then Some("aʊ") else
      if p == "AW0" then Some("aʊ") else
      if p == "AY2" then Some("aɪ") else
      if p == "AY0" then Some("aɪ") else
      if p == "OY1" then Some("ɔɪ") else
      if p == "OW2" then Some("oʊ") else
      if p == "OW0" then Some("oʊ") else
      if p == "ER2" then Some("ɜː") else
      if p == "ER1" then Some("ɜː") else
      if p == "ER0" then Some("ɜː") else
      if p == "AW1" then Some("aʊ") else
      if p == "OW1" then Some("oʊ") else
      if p == "AY1" then Some("aɪ") else
      if p == "EY1" then Some("eɪ") else
      if p == "EH2" then Some("ɛ") else  // line 21, also defined at line 64
      if p == "UH1" then Some("ʊ") else
      if p == "UW1" then Some("u") else
      if p == "AO1" then Some("ɔ") else
      if p == "AE1" then Some("æ") else
      if p == "AA1" then Some("ɑ") else
      if p == "AH0" then Some("ə") else  // line 9, also defined at line 60
      if p == "EH1" then Some("ɛ") else
      if p == "IH2" then Some("ɪ") else
      if p == "IH0" then Some("ɪ") else
      None
    else if |p| == 4 then
      if p == "AX-H" then Some("ə") else
      None
    else None
  }

  /**
   * The same literal read top-down (again grouped by key length), as if the first definition of a
   * repeated key won. It is not what the source does; it exists to show which keys depend on the
   * reading order (only `AH0`).
   */
  function FirstIpa(p: string): Option<string>
  {
    if |p| == 1 then
      if p == "N" then Some("n") else
      if p == "T" then Some("t") else  // line 12, also defined at line 95
      if p == "L" then Some("l") else
      if p == "S" then Some("s") else  // line 14, also defined at line 99
      if p == "M" then Some("m") else
      if p == "B" then Some("b") else  // line 26, also defined at line 91
      if p == "D" then Some("d") else  // line 27, also defined at line 92
      if p == "F" then Some("f") else
      if p == "G" then Some("ɡ") else  // line 29, also defined at line 93
      if p == "K" then Some("k") else  // line 30, also defined at line 96
      if p == "P" then Some("p") else  // line 31, also defined at line 94
      if p == "R" then Some("r") else
      if p == "V" then Some("v") else
      if p == "W" then Some("w") else
      if p == "Y" then Some("j") else
      if p == "Z" then Some("z") else
      if p == "B" then Some("b") else  // line 91, also defined at line 26
      if p == "D" then Some("d") else  // line 92, also defined at line 27
      if p == "G" then Some("ɡ") else  // line 93, also defined at line 29
      if p == "P" then Some("p") else  // line 94, also defined at line 31
      if p == "T" then Some("t") else  // line 95, also defined at line 12
      if p == "K" then Some("k") else  // line 96, also defined at line 30
      if p == "Q" then Some("ʔ") else
      if p == "S" then Some("s") else  // line 99, also defined at line 14
      None
    else if |p| == 2 then
      if p == "JH" then Some("dʒ") else
      if p == "DH" then Some("ð") else
      if p == "HH" then Some("h") else
      if p == "NG" then Some("ŋ") else
      if p == "SH" then Some("ʃ") else  // line 43, also defined at line 100
      if p == "TH" then Some("θ") else
      if p == "CH" then Some("tʃ") else
      if p == "ZH" then Some("ʒ") else
      if p == "AY" then Some("aɪ") else
      if p == "EY" then Some("eɪ") else
      if p == "OW" then Some("oʊ") else
      if p == "AW" then Some("aʊ") else
      if p == "UW" then Some("u") else
      if p == "UH" then Some("ʊ") else
      if p == "AH" then Some("ʌ") else
      if p == "AE" then Some("æ") else
      if p == "EH" then Some("ɛ") else
      if p == "AO" then Some("ɔ") else
      if p == "AA" then Some("ɑ") else
      if p == "IH" then Some("ɪ") else
      if p == "IY" then Some("i") else
      if p == "ER" then Some("ɜː") else
      if p == "AX" then Some("ə") else
      if p == "IX" then Some("ɨ") else
      if p == "UX" then Some("u") else
      if p == "DX" then Some("ɾ") else
      if p == "SH" then Some("ʃ") else  // line 100, also defined at line 43
      None
    else if |p| == 3 then
      if p == "IH0" then Some("ɪ") else
      if p == "IH2" then Some("ɪ") else
      if p == "EH1" then Some("ɛ") else
      if p == "AH0" then Some("ə") else  // line 9, also defined at line 60
      if p == "AA1" then Some("ɑ") else
      if p == "AE1" then Some("æ") else
      if p == "AO1" then Some("ɔ") else
      if p == "UW1" then Some("u") else
      if p == "UH1" then Some("ʊ") else
      if p == "EH2" then Some("ɛ") else  // line 21, also defined at line 64
      if p == "EY1" then Some("eɪ") else
      if p == "AY1" then Some("aɪ") else
      if p == "OW1" then Some("oʊ") else
      if p == "AW1" then Some("aʊ") else
      if p == "ER0" then Some("ɜː") else
      if p == "ER1" then Some("ɜː") else
      if p == "ER2" then Some("ɜː") else
      if p == "OW0" then Some("oʊ") else
      if p == "OW2" then Some("oʊ") else
      if p == "OY1" then Some("ɔɪ") else
      if p == "AY0" then Some("aɪ") else
      if p == "AY2" then Some("aɪ") else
      if p == "AW0" then Some("aʊ") else
      if p == "AW2" then Some("aʊ") else
      if p == "UW0" then Some("u") else
      if p == "UW2" then Some("u") else
      if p == "UH0" then Some("ʊ") else
      if p == "UH2" then Some("ʊ") else
      if p == "AH1" then Some("ʌ") else
      if p == "AH2" then Some("ʌ") else
      if p == "AH0" then Some("ʌ") else  // line 60, also defined at line 9
      if p == "AE0" then Some("æ") else
      if p == "AE2" then Some("æ") else
      if p == "EH0" then Some("ɛ") else
      if p == "EH2" then Some("ɛ") else  // line 64, also defined at line 21
      if p == "AO0" then Some("ɔ") else
      if p == "AO2" then Some("ɔ") else
      if p == "AA0" then Some("ɑ") else
      if p == "AA2" then Some("ɑ") else
      if p == "IY0" then Some("i") else
      if p == "IY1" then Some("i") else
      if p == "IY2" then Some("i") else
      if p == "AXR" then Some("ɚ") else
      None
    else if |p| == 4 then
      if p == "AX-H" then Some("ə") else
      None
    else None
  }

  /** `arpabet_to_ipa.get(p, p)`: the table's IPA symbol, or `p` itself when it is not a key. */
  function ToIpa(p: string): (q: string)
    ensures LatestIpa(p).Some? ==> q == LatestIpa(p).value
    ensures LatestIpa(p).None? ==> q == p
  {
    LatestIpa(p).GetOr(p)
  }

  /** `convert_arpabet_to_ipa`: each symbol converted on its own, in order. */
  function ConvertArpabetToIpa(phonemes: seq<string>): (ipa: seq<string>)
    ensures |ipa| == |phonemes|
    ensures forall i :: 0 <= i < |phonemes| ==> ipa[i] == ToIpa(phonemes[i])
  {
    if phonemes == [] then [] else [ToIpa(phonemes[0])] + ConvertArpabetToIpa(phonemes[1..])
  }

  /** Conversion distributes over concatenation. */
  lemma {:induction false} ConvertAppend(a: seq<string>, b: seq<string>)
    ensures ConvertArpabetToIpa(a + b) == ConvertArpabetToIpa(a) + ConvertArpabetToIpa(b)
  {
    if a != [] {
      assert (a + b)[1..] == a[1..] + b;
      ConvertAppend(a[1..], b);
    } else {
      assert a + b == b;
    }
  }

  /** The reduced vowel `AH0` is defined twice with different symbols; the later one (`ʌ`) is used. */
  lemma ReducedVowelTakesLaterDefinition()
    ensures ToIpa("AH0") == "ʌ"
    ensures FirstIpa("AH0") == Some("ə")
  {
  }

  /** The stop consonants repeated at lines 91-96 repeat the symbols of their first definitions. */
  lemma RepeatedStopsAgree(k: string)
    requires k == "B" || k == "D" || k == "G" || k == "P" || k == "T" || k == "K"
    ensures LatestIpa(k).Some? && LatestIpa(k) == FirstIpa(k)
  {
  }

  /** `EH2`, `S` and `SH`, repeated at lines 64, 99 and 100, also repeat their first symbols. */
  lemma OtherRepeatedKeysAgree(k: string)
    requires k == "EH2" || k == "S" || k == "SH"
    ensures LatestIpa(k).Some? && LatestIpa(k) == FirstIpa(k)
  {
  }

  /** A stressed vowel the table leaves out passes through unchanged. */
  lemma UnlistedIH1PassesThrough()
    ensures ConvertArpabetToIpa(["IH1"]) == ["IH1"]
  {
  }

  /** So does an unstressed `EY0`: the table lists only `EY1` and the bare `EY`. */
  lemma UnlistedEY0PassesThrough()
    ensures ConvertArpabetToIpa(["EY0"]) == ["EY0"]
  {
  }

  lemma IpaOfDH() ensures ToIpa("DH") == "ð" { }

  lemma IpaOfIH0() ensures ToIpa("IH0") == "ɪ" { }

  lemma IpaOfS() ensures ToIpa("S") == "s" { }

  /** `this` as ARPAbet converts symbol by symbol. */
  lemma ConvertThis()
    ensures ConvertArpabetToIpa(["DH", "IH0", "S"]) == ["ð", "ɪ", "s"]
  {
    IpaOfDH();
    IpaOfIH0();
    IpaOfS();
  }
}
