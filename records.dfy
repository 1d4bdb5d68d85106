/** Record parsing (readObject), count files (countFile), record file names
    and constellation names, as functions of the bytes on the medium. */
module Records {
  import opened Common
  import opened Text
  import opened SkyTypes
  import opened Storage
  import opened Paths

  /** One readLine call: the text stored and the stream left behind. */
  function Line(s: seq<char>, size: nat): (r: (string, seq<char>))
    requires size >= 1
    ensures |r.0| < size && |r.1| <= |s|
  {
    (LineText(s, size), s[Consumed(s, size)..])
  }

  /** The number of lines readObject reads for a category. */
  function FieldCount(t: DatabaseObjectType): nat
  {
    if t == Star then 9 else 6
  }

  /** The six lines every record has: name, designation, constellation,
      ra, dec, magnitude; the star-only fields are left NotApplicable. */
  function ParseCommon(s: seq<char>, id: int): (r: (SkyObject, seq<char>))
    ensures r.0.index == id
    ensures |r.0.name| < NameSize && |r.0.designation| < DesignationSize && |r.0.constAbrv| < ConstAbrvSize
    ensures r.0.ra.FromText? && r.0.dec.FromText? && r.0.magnitude.FromText?
    ensures |r.0.ra.text| < NumberSize && |r.0.dec.text| < NumberSize && |r.0.magnitude.text| < NumberSize
    ensures r.0.dRa == r.0.dDec == r.0.parallax == NotApplicable
    ensures |r.1| <= |s|
  {
    var name := Line(s, NameSize);
    var designation := Line(name.1, DesignationSize);
    var constAbrv := Line(designation.1, ConstAbrvSize);
    var ra := Line(constAbrv.1, NumberSize);
    var dec := Line(ra.1, NumberSize);
    var magnitude := Line(dec.1, NumberSize);
    (SkyObject(id, designation.0, name.0, constAbrv.0,
               FromText(ra.0), FromText(dec.0), FromText(magnitude.0),
               NotApplicable, NotApplicable, NotApplicable),
     magnitude.1)
  }

  /** The three further lines of a star: dRa, dDec, parallax. */
  function ParseStarFields(o: SkyObject, s: seq<char>): (r: (SkyObject, seq<char>))
    ensures r.0 == o.(dRa := r.0.dRa, dDec := r.0.dDec, parallax := r.0.parallax)
    ensures r.0.dRa.FromText? && r.0.dDec.FromText? && r.0.parallax.FromText?
    ensures |r.0.dRa.text| < NumberSize && |r.0.dDec.text| < NumberSize && |r.0.parallax.text| < NumberSize
    ensures |r.1| <= |s|
  {
    var dRa := Line(s, NumberSize);
    var dDec := Line(dRa.1, NumberSize);
    var parallax := Line(dDec.1, NumberSize);
    (o.(dRa := FromText(dRa.0), dDec := FromText(dDec.0), parallax := FromText(parallax.0)), parallax.1)
  }

  /** readObject on a valid file: the six common lines, then for stars the
      three star-only lines. */
  function ParseRecord(s: seq<char>, id: int, t: DatabaseObjectType): (r: (SkyObject, seq<char>))
    ensures r.0.index == id
    ensures |r.0.name| < NameSize && |r.0.designation| < DesignationSize && |r.0.constAbrv| < ConstAbrvSize
    ensures r.0.ra.FromText? && r.0.dec.FromText? && r.0.magnitude.FromText?
    ensures t == Star <==> r.0.dRa.FromText? && r.0.dDec.FromText? && r.0.parallax.FromText?
    ensures t != Star ==> r.0.dRa == r.0.dDec == r.0.parallax == NotApplicable
    ensures |r.1| <= |s|
  {
    var common := ParseCommon(s, id);
    if t == Star then ParseStarFields(common.0, common.1) else common
  }

  /** readObject(objectFile, objIndex, objType): a cleared record, untouched
      stream, for an invalid file; otherwise the fields in file order. */
  method ReadObject(file: Option<seq<char>>, objIndex: int, objType: DatabaseObjectType)
    returns (skyObject: SkyObject, after: Option<seq<char>>)
    ensures file.None? ==> skyObject == EmptyObject() && after.None?
    ensures file.Some? ==> after.Some? && (skyObject, after.value) == ParseRecord(file.value, objIndex, objType)
  {
    skyObject := EmptyObject();
    after := file;
    if file.Some? {
      var s := file.value;
      var name, designation, constAbrv, ra, dec, magnitude;
      name, s := ReadLine(s, NameSize);
      designation, s := ReadLine(s, DesignationSize);
      constAbrv, s := ReadLine(s, ConstAbrvSize);
      ra, s := ReadLine(s, NumberSize);
      dec, s := ReadLine(s, NumberSize);
      magnitude, s := ReadLine(s, NumberSize);
      skyObject := skyObject.(index := objIndex, name := name, designation := designation, constAbrv := constAbrv,
                              ra := FromText(ra), dec := FromText(dec), magnitude := FromText(magnitude));
      if objType == Star {
        var dRa, dDec, parallax;
        dRa, s := ReadLine(s, NumberSize);
        dDec, s := ReadLine(s, NumberSize);
        parallax, s := ReadLine(s, NumberSize);
        skyObject := skyObject.(dRa := FromText(dRa), dDec := FromText(dDec), parallax := FromText(parallax));
      } else {
        skyObject := skyObject.(dRa := NotApplicable, dDec := NotApplicable, parallax := NotApplicable);
      }
      after := Some(s);
    }
  }

  // ----- well-formed record files -----

  /** The text of a record file: each field followed by '\n'. */
  function RecordText(lines: seq<string>): string
  {
    if lines == [] then [] else lines[0] + ['\n'] + RecordText(lines[1..])
  }

  predicate NoNewline(line: string)
  {
    forall i :: 0 <= i < |line| ==> line[i] != '\n'
  }

  /** The lines of a record of category t that fit their buffers. */
  predicate WellFormedRecord(lines: seq<string>, t: DatabaseObjectType)
  {
    && |lines| == FieldCount(t)
    && (forall i :: 0 <= i < |lines| ==> NoNewline(lines[i]))
    && |lines[0]| < NameSize && |lines[1]| < DesignationSize && |lines[2]| < ConstAbrvSize
    && (forall i :: 3 <= i < |lines| ==> |lines[i]| < NumberSize)
  }

  lemma ReadRecordLine(lines: seq<string>, k: nat, rest: seq<char>, size: nat)
    requires k < |lines| && size >= 1 && NoNewline(lines[k]) && |lines[k]| < size
    ensures Line(RecordText(lines[k..]) + rest, size) == (lines[k], RecordText(lines[k + 1..]) + rest)
  {
    var tail := RecordText(lines[k + 1..]) + rest;
    assert lines[k..][0] == lines[k] && lines[k..][1..] == lines[k + 1..];
    assert RecordText(lines[k..]) + rest == lines[k] + ['\n'] + tail;
    CompleteLine(lines[k], tail, size);
  }

  /** The three text fields of a well-formed record. */
  lemma ReadTextFields(lines: seq<string>, rest: seq<char>)
    requires |lines| >= 6 && NoNewline(lines[0]) && NoNewline(lines[1]) && NoNewline(lines[2])
    requires |lines[0]| < NameSize && |lines[1]| < DesignationSize && |lines[2]| < ConstAbrvSize
    ensures var name := Line(RecordText(lines) + rest, NameSize);
      var designation := Line(name.1, DesignationSize);
      var constAbrv := Line(designation.1, ConstAbrvSize);
      name.0 == lines[0] && designation.0 == lines[1] && constAbrv == (lines[2], RecordText(lines[3..]) + rest)
  {
    assert Line(RecordText(lines) + rest, NameSize) == (lines[0], RecordText(lines[1..]) + rest) by {
      assert lines[0..] == lines;
      ReadRecordLine(lines, 0, rest, NameSize);
    }
    ReadRecordLine(lines, 1, rest, DesignationSize);
    ReadRecordLine(lines, 2, rest, ConstAbrvSize);
  }

  /** The three numeric fields every record has. */
  lemma ReadNumberFields(lines: seq<string>, rest: seq<char>)
    requires |lines| >= 6 && NoNewline(lines[3]) && NoNewline(lines[4]) && NoNewline(lines[5])
    requires |lines[3]| < NumberSize && |lines[4]| < NumberSize && |lines[5]| < NumberSize
    ensures var ra := Line(RecordText(lines[3..]) + rest, NumberSize);
      var dec := Line(ra.1, NumberSize);
      var magnitude := Line(dec.1, NumberSize);
      ra.0 == lines[3] && dec.0 == lines[4] && magnitude == (lines[5], RecordText(lines[6..]) + rest)
  {
    ReadRecordLine(lines, 3, rest, NumberSize);
    ReadRecordLine(lines, 4, rest, NumberSize);
    ReadRecordLine(lines, 5, rest, NumberSize);
  }

  lemma ParseCommonWellFormed(lines: seq<string>, rest: seq<char>, id: int)
    requires |lines| >= 6 && forall i :: 0 <= i < 6 ==> NoNewline(lines[i])
    requires |lines[0]| < NameSize && |lines[1]| < DesignationSize && |lines[2]| < ConstAbrvSize
    requires |lines[3]| < NumberSize && |lines[4]| < NumberSize && |lines[5]| < NumberSize
    ensures ParseCommon(RecordText(lines) + rest, id) ==
      (SkyObject(id, lines[1], lines[0], lines[2], FromText(lines[3]), FromText(lines[4]), FromText(lines[5]),
                 NotApplicable, NotApplicable, NotApplicable),
       RecordText(lines[6..]) + rest)
  {
    assert NoNewline(lines[0]) && NoNewline(lines[1]) && NoNewline(lines[2]);
    assert NoNewline(lines[3]) && NoNewline(lines[4]) && NoNewline(lines[5]);
    ReadTextFields(lines, rest);
    ReadNumberFields(lines, rest);
  }

  lemma ParseStarWellFormed(o: SkyObject, lines: seq<string>, rest: seq<char>)
    requires |lines| == 9 && forall i :: 6 <= i < 9 ==> NoNewline(lines[i]) && |lines[i]| < NumberSize
    ensures ParseStarFields(o, RecordText(lines[6..]) + rest) ==
      (o.(dRa := FromText(lines[6]), dDec := FromText(lines[7]), parallax := FromText(lines[8])), rest)
  {
    ReadRecordLine(lines, 6, rest, NumberSize);
    ReadRecordLine(lines, 7, rest, NumberSize);
    ReadRecordLine(lines, 8, rest, NumberSize);
    assert lines[9..] == [];
    assert RecordText(lines[9..]) + rest == rest;
  }

  /** Parsing the text of a well-formed record gives back its lines, in the
      field order the code uses (name first), and leaves exactly what follows
      the record: 9 lines are consumed for a star, 6 otherwise. */
  lemma ParseWellFormed(lines: seq<string>, rest: seq<char>, id: int, t: DatabaseObjectType)
    requires WellFormedRecord(lines, t)
    ensures ParseRecord(RecordText(lines) + rest, id, t) ==
      (SkyObject(id, lines[1], lines[0], lines[2], FromText(lines[3]), FromText(lines[4]), FromText(lines[5]),
                 if t == Star then FromText(lines[6]) else NotApplicable,
                 if t == Star then FromText(lines[7]) else NotApplicable,
                 if t == Star then FromText(lines[8]) else NotApplicable),
       rest)
  {
    ParseCommonWellFormed(lines, rest, id);
    if t == Star {
      var o := ParseCommon(RecordText(lines) + rest, id).0;
      ParseStarWellFormed(o, lines, rest);
    } else {
      assert lines[6..] == [];
      assert RecordText(lines[6..]) + rest == rest;
    }
  }

  // ----- count files -----

  /** countFile(sd, path, cntName): -1 when the count file cannot be opened,
      otherwise atoi of its first line as read into a 6-byte buffer. */
  function CountValue(fs: FileSystem, root: string, cntName: string): (r: int)
    ensures Open(fs, CountPath(root, cntName)).None? ==> r == -1
    ensures Open(fs, CountPath(root, cntName)).Some? ==> -100000 < r < 100000
  {
    match Open(fs, CountPath(root, cntName))
    case None => -1
    case Some(bytes) =>
      var text := LineText(bytes, CountSize);
      Pow10Monotone(|text|, CountSize - 1);
      assert Pow10(2) == 100;
      assert Pow10(5) == 10 * 10 * Pow10(3) == 100000;
      Atoi(text)
  }

  method CountFile(fs: FileSystem, path: string, cntName: string) returns (count: int)
    ensures count == CountValue(fs, path, cntName)
  {
    count := -1;
    var cntPath := NewPathByAppendingPaths(path, Some(cntName), None, None);
    var cntFile := Open(fs, cntPath);
    if cntFile.Some? {
      var text, _ := ReadLine(cntFile.value, CountSize);
      count := Atoi(text);
    }
  }

  /** A count file whose first line is a number of up to five digits yields
      that number; a longer number is cut to its first five digits. */
  lemma CountOfDecimalFile(fs: FileSystem, root: string, cntName: string, digits: string, tail: seq<char>)
    requires |digits| >= 1 && AllDigits(digits)
    requires tail == [] || tail[0] == '\n'
    requires CountPath(root, cntName) in fs && fs[CountPath(root, cntName)] == File(digits + tail)
    ensures |digits| < CountSize ==> CountValue(fs, root, cntName) == DecimalValue(digits)
    ensures |digits| >= CountSize ==> CountValue(fs, root, cntName) == DecimalValue(digits[..CountSize - 1])
    ensures CountValue(fs, root, cntName) >= 0
  {
    var s := digits + tail;
    assert forall i :: 0 <= i < |digits| ==> s[i] == digits[i];
    assert |tail| > 0 ==> s[|digits|] == '\n';
    assert LineLength(s) == |digits|;
    var text := LineText(s, CountSize);
    if |digits| < CountSize {
      assert text == digits;
      AtoiOfDigits(digits, []);
      assert digits + [] == digits;
    } else {
      assert text == digits[..CountSize - 1];
      AtoiOfDigits(text, []);
      assert text + [] == text;
    }
  }

  // ----- record file names -----

  /** currentObjectInList's test: the last four characters, lower-cased,
      contain "txt". */
  predicate IsRecordEntry(name: string)
    requires |name| >= 4
    ensures LowerAll(name[|name| - 4..]) == ".txt" ==> IsRecordEntry(name)
    ensures AllDigits(name[|name| - 4..]) ==> !IsRecordEntry(name)
  {
    var tail := name[|name| - 4..];
    var ext := LowerAll(tail);
    assert AllDigits(tail) ==> IsDigit(tail[0]) && IsDigit(tail[1]) && ext[0] == tail[0] && ext[1] == tail[1];
    ext[..3] == "txt" || ext[1..] == "txt"
  }

  /** The identifier read back from an entry name: atoi of the name without
      its last four characters. */
  function EntryId(name: string): (r: int)
    requires |name| >= 4
    ensures |name| > 4 && AllDigits(name[..|name| - 4]) ==> r == DecimalValue(name[..|name| - 4])
    ensures -(Pow10(|name| - 4) as int) < r < Pow10(|name| - 4)
  {
    var stem := name[..|name| - 4];
    if |stem| >= 1 && AllDigits(stem) then
      AtoiOfDigits(stem, []);
      assert stem + [] == stem;
      Atoi(stem)
    else Atoi(stem)
  }

  /** A record file written for identifier id, in lower or in upper case
      (8.3 short names come back upper-cased), passes the test and gives id
      back. */
  lemma RecordFileNameRoundTrip(id: int)
    requires 0 <= id < 1000000
    ensures IsRecordEntry(RecordFileName(id)) && EntryId(RecordFileName(id)) == id
    ensures IsRecordEntry(Pad(id, 6) + ".TXT") && EntryId(Pad(id, 6) + ".TXT") == id
  {
    var d := Pad(id, 6);
    assert Pow10(6) == 1000000;
    PadRoundTrip(id, 6);
    AtoiOfDigits(d, []);
    assert d + [] == d;
    assert RecordFileName(id)[..6] == d;
    assert (d + ".TXT")[..6] == d;
    assert LowerAll(".TXT") == ".txt";
  }

  /** Record file names hold no capitals: strlwr leaves them as they are. */
  lemma RecordFileNameLower(id: int)
    requires 0 <= id < 1000000
    ensures LowerAll(RecordFileName(id)) == RecordFileName(id)
  {
    var f := RecordFileName(id);
    forall i | 0 <= i < |f|
      ensures Lower(f[i]) == f[i]
    {
      if i < 6 {
        assert IsDigit(f[..6][i]);
      } else {
        assert f[i] == f[6..][i - 6];
      }
    }
  }

  /** A listing that reports the record file of id in any case of its
      letters (a FAT short name comes back as "000123.TXT") still passes the
      test and still gives id back. */
  lemma AnySpellingRoundTrip(name: string, id: int)
    requires 0 <= id < 1000000
    requires LowerAll(name) == RecordFileName(id)
    ensures |name| == 10 && IsRecordEntry(name) && EntryId(name) == id
  {
    var f := RecordFileName(id);
    RecordFileNameRoundTrip(id);
    assert name[..6] == f[..6] by {
      forall i | 0 <= i < 6
        ensures name[i] == f[i]
      {
        assert IsDigit(f[..6][i]);
        assert Lower(name[i]) == f[i];
      }
    }
    assert LowerAll(name[6..]) == ".txt" by {
      forall i | 0 <= i < 4
        ensures LowerAll(name[6..])[i] == f[6..][i]
      {
        assert name[6..][i] == name[6 + i];
        assert LowerAll(name)[6 + i] == f[6 + i];
      }
    }
    assert name[|name| - 4..] == name[6..];
    assert name[..|name| - 4] == f[..|f| - 4];
  }

  /** A path to a record file in any spelling lower-cases like the path to
      the record file itself. */
  lemma SpellingInPath(dir: string, name: string, id: int)
    requires 0 <= id < 1000000
    requires LowerAll(name) == RecordFileName(id)
    ensures LowerAll(dir + "/" + name) == LowerAll(dir + "/" + RecordFileName(id))
  {
    LowerAllConcat(dir + "/", name);
    LowerAllConcat(dir + "/", RecordFileName(id));
    RecordFileNameLower(id);
  }

  /** The test is weaker than "ends in .txt": an entry named TXT1 passes and
      is read as identifier 0. */
  lemma NonRecordNameAccepted()
    ensures IsRecordEntry("TXT1") && EntryId("TXT1") == 0
  {
    assert LowerAll("TXT1") == "txt1";
    assert "TXT1"[..0] == [];
  }

  // ----- lookups -----

  /** Once currentObjectInList has cut ".txt" off a record file's name,
      the six digits left fail the extension test. */
  lemma CutNameRejected(id: int)
    requires 0 <= id < 1000000
    ensures var stem := RecordFileName(id)[..6];
      |stem| >= 4 && !IsRecordEntry(stem)
  {
    var stem := RecordFileName(id)[..6];
    assert stem[2..] == stem[|stem| - 4..];
    assert AllDigits(stem[2..]) by {
      forall i | 0 <= i < 4
        ensures IsDigit(stem[2..][i])
      {
        assert stem[2..][i] == stem[i + 2];
      }
    }
  }

  /** What `object` returns: the parsed record file, or the cleared record
      when the file cannot be opened. */
  function LookupObject(fs: FileSystem, root: string, abrv: Option<string>, id: int, t: DatabaseObjectType): (r: SkyObject)
    requires 0 <= id < 1000000
    ensures Open(fs, RecordPath(root, abrv, id, t)).None? ==> r == EmptyObject()
    ensures Open(fs, RecordPath(root, abrv, id, t)).Some? ==>
      && r.index == id && r.ra.FromText? && r.dec.FromText? && r.magnitude.FromText?
      && (t == Star <==> r.dRa.FromText? && r.dDec.FromText? && r.parallax.FromText?)
  {
    match Open(fs, RecordPath(root, abrv, id, t))
    case None => EmptyObject()
    case Some(bytes) => ParseRecord(bytes, id, t).0
  }

  /** Looking up a well-formed record file gives its lines back under the
      identifier it was looked up by; the file name reads back as that same
      identifier. */
  lemma LookupWellFormed(fs: FileSystem, root: string, abrv: Option<string>, id: int, t: DatabaseObjectType,
                         lines: seq<string>, rest: seq<char>)
    requires 0 <= id < 1000000 && WellFormedRecord(lines, t)
    requires RecordPath(root, abrv, id, t) in fs && fs[RecordPath(root, abrv, id, t)] == File(RecordText(lines) + rest)
    ensures LookupObject(fs, root, abrv, id, t) ==
      SkyObject(id, lines[1], lines[0], lines[2], FromText(lines[3]), FromText(lines[4]), FromText(lines[5]),
                if t == Star then FromText(lines[6]) else NotApplicable,
                if t == Star then FromText(lines[7]) else NotApplicable,
                if t == Star then FromText(lines[8]) else NotApplicable)
    ensures EntryId(RecordFileName(id)) == id
  {
    ParseWellFormed(lines, rest, id, t);
    RecordFileNameRoundTrip(id);
  }

  /** What `constellation` returns: the abbreviation, and the first line of
      the translation file of the language, or the abbreviation again when
      that file cannot be opened. */
  function ConstRecord(fs: FileSystem, root: string, lang: SkyTranslate, abrv: string): (r: SkyConst)
    ensures r.abrv == abrv
    ensures Open(fs, TranslationPath(root, abrv, lang)).None? ==> r.fullName == abrv
    ensures Open(fs, TranslationPath(root, abrv, lang)).Some? ==>
      var bytes := Open(fs, TranslationPath(root, abrv, lang)).value;
      && |r.fullName| < FullNameSize && r.fullName <= bytes
      && forall i :: 0 <= i < |r.fullName| ==> r.fullName[i] != '\n'
  {
    match Open(fs, TranslationPath(root, abrv, lang))
    case None => SkyConst(abrv, abrv)
    case Some(bytes) => SkyConst(abrv, LineText(bytes, FullNameSize))
  }

  /** A translation that fits is returned whole; a longer one is cut to 31
      characters; without a translation file the name is the abbreviation. */
  lemma ConstellationName(fs: FileSystem, root: string, lang: SkyTranslate, abrv: string, name: string, tail: seq<char>)
    requires NoNewline(name) && (tail == [] || tail[0] == '\n')
    ensures var path := TranslationPath(root, abrv, lang);
      path in fs && fs[path] == File(name + tail) ==>
        ConstRecord(fs, root, lang, abrv) ==
          SkyConst(abrv, if |name| < FullNameSize then name else name[..FullNameSize - 1])
    ensures TranslationPath(root, abrv, lang) !in fs ==> ConstRecord(fs, root, lang, abrv) == SkyConst(abrv, abrv)
  {
    var s := name + tail;
    assert forall i :: 0 <= i < |name| ==> s[i] == name[i];
    assert |tail| > 0 ==> s[|name|] == '\n';
    assert LineLength(s) == |name|;
    assert s[..|name|] == name;
    assert |name| >= FullNameSize ==> s[..FullNameSize - 1] == name[..FullNameSize - 1];
  }
}
