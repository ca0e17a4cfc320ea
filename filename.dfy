/**
  The download name of the packet: the project name with every UTF-16 code
  unit outside [a-zA-Z0-9] replaced by an underscore, then `_Packet.pdf`.
  The replacement runs on code units, as a regular expression without the
  `u` flag does, so a character outside the Basic Multilingual Plane, which
  takes two code units, becomes two underscores.
 */
module Filename {

  /** A UTF-16 code unit, the element of a JavaScript string. */
  type CodeUnit = u: int | 0 <= u < 0x1_0000

  const Underscore: CodeUnit := 0x5F
  const Suffix: string := "_Packet.pdf"

  /** The code units of one character: itself inside the Basic Multilingual Plane, else a surrogate pair. */
  function CharUnits(c: char): (r: seq<CodeUnit>)
    ensures c as int < 0x1_0000 ==> r == [c as int]
    ensures c as int >= 0x1_0000 ==> |r| == 2 && 0xD800 <= r[0] < 0xDC00 && 0xDC00 <= r[1] < 0xE000
  {
    if c as int < 0x1_0000 then [c as int]
    else [0xD800 + (c as int - 0x1_0000) / 0x400, 0xDC00 + (c as int - 0x1_0000) % 0x400]
  }

  /** The UTF-16 form of a string. */
  function Utf16(s: string): (r: seq<CodeUnit>)
    ensures |r| >= |s|
    ensures (forall i :: 0 <= i < |s| ==> s[i] as int < 0x1_0000) ==> |r| == |s| && forall i :: 0 <= i < |s| ==> r[i] == s[i] as int
  {
    if s == [] then [] else Utf16(s[..|s| - 1]) + CharUnits(s[|s| - 1])
  }

  predicate IsAsciiAlphanumeric(u: CodeUnit)
  {
    0x30 <= u <= 0x39 || 0x41 <= u <= 0x5A || 0x61 <= u <= 0x7A
  }

  /** The global replacement of the character class [^a-zA-Z0-9] by '_', one code unit at a time. */
  function Sanitize(units: seq<CodeUnit>): (r: seq<CodeUnit>)
    ensures |r| == |units|
    ensures forall i :: 0 <= i < |units| ==> (IsAsciiAlphanumeric(units[i]) ==> r[i] == units[i])
    ensures forall i :: 0 <= i < |units| ==> (!IsAsciiAlphanumeric(units[i]) ==> r[i] == Underscore)
  {
    if units == [] then []
    else Sanitize(units[..|units| - 1]) + [if IsAsciiAlphanumeric(units[|units| - 1]) then units[|units| - 1] else Underscore]
  }

  /** The file name of the `Content-Disposition` header, as code units. */
  function PacketFilename(projectName: string): (r: seq<CodeUnit>)
    ensures |r| == |Utf16(projectName)| + |Suffix|
    ensures r[..|Utf16(projectName)|] == Sanitize(Utf16(projectName)) && r[|Utf16(projectName)|..] == Utf16(Suffix)
  {
    Sanitize(Utf16(projectName)) + Utf16(Suffix)
  }

  /**
    A character outside the Basic Multilingual Plane becomes two
    underscores: "A😀" gives "A" + "__" + "_Packet.pdf", three underscores
    in a row.
   */
  lemma AstralCharacterGivesTwoUnderscores()
    ensures |PacketFilename("A\U{1F600}")| == 3 + |Suffix|
    ensures PacketFilename("A\U{1F600}")[..3] == [0x41, Underscore, Underscore]
    ensures PacketFilename("A\U{1F600}")[3..] == Utf16(Suffix)
  {
    assert "A\U{1F600}"[..1] == "A";
    var pair := CharUnits('\U{1F600}');
    assert Utf16("A\U{1F600}") == [0x41] + pair;
  }

  /** A sanitized name holds only letters, digits and underscores, so it can never close the quoted header value. */
  lemma {:induction false} SanitizedAlphabet(units: seq<CodeUnit>)
    ensures forall u :: u in Sanitize(units) ==> IsAsciiAlphanumeric(u) || u == Underscore
  {
    var r := Sanitize(units);
    forall u | u in r ensures IsAsciiAlphanumeric(u) || u == Underscore {
      var i :| 0 <= i < |r| && r[i] == u;
    }
  }

  /** The file name has no quote, backslash, slash, control unit or surrogate. */
  lemma FilenameIsSafe(projectName: string)
    ensures forall u :: u in PacketFilename(projectName) ==> IsAsciiAlphanumeric(u) || u == Underscore || u == 0x2E
  {
    var r := PacketFilename(projectName);
    forall u | u in r ensures IsAsciiAlphanumeric(u) || u == Underscore || u == 0x2E {
      var i :| 0 <= i < |r| && r[i] == u;
      FilenameUnitSafe(projectName, i);
    }
  }

  /** One position of the file name: a sanitized code unit or a code unit of the suffix. */
  lemma FilenameUnitSafe(projectName: string, i: int)
    requires 0 <= i < |Utf16(projectName)| + |Suffix|
    ensures var u := PacketFilename(projectName)[i]; IsAsciiAlphanumeric(u) || u == Underscore || u == 0x2E
  {
    var s := Sanitize(Utf16(projectName));
    var t := Utf16(Suffix);
    assert PacketFilename(projectName) == s + t;
    if i < |s| {
      assert (s + t)[i] == s[i];
    } else {
      assert (s + t)[i] == t[i - |s|];
      SuffixSafe(i - |s|);
    }
  }

  lemma SuffixSafe(j: int)
    requires 0 <= j < |Suffix|
    ensures var u := Utf16(Suffix)[j]; IsAsciiAlphanumeric(u) || u == Underscore || u == 0x2E
  {
  }

  /** Sanitizing twice is sanitizing once. */
  lemma {:induction false} SanitizeIdempotent(units: seq<CodeUnit>)
    ensures Sanitize(Sanitize(units)) == Sanitize(units)
  {
    var r := Sanitize(units);
    var rr := Sanitize(r);
    forall i | 0 <= i < |r| ensures rr[i] == r[i] {
      if !IsAsciiAlphanumeric(units[i]) {
        assert !IsAsciiAlphanumeric(r[i]);
      }
    }
  }

  /**
    Two names with the same number of code units that differ only in which
    non-alphanumeric code units they use get the same file name.
   */
  lemma SameShapeSameFilename(a: string, b: string)
    requires |Utf16(a)| == |Utf16(b)|
    requires forall i :: 0 <= i < |Utf16(a)| ==> (IsAsciiAlphanumeric(Utf16(a)[i]) || IsAsciiAlphanumeric(Utf16(b)[i]) ==> Utf16(a)[i] == Utf16(b)[i])
    ensures PacketFilename(a) == PacketFilename(b)
  {
    assert Sanitize(Utf16(a)) == Sanitize(Utf16(b));
  }
}
