/** The configurations exercised by the repository's tests, loaded through
    the model: the five-field `Cfg`, the `.env` file the tests write, and the
    environment `setupEnv` installs. */
module Scenarios {
  import opened Outcomes
  import opened Text
  import opened LineGrammar
  import opened Schema
  import opened Coercion
  import opened Binding
  import opened Loader
  import Strconv

  function Tagged(name: string, tag: string, k: Kind): Field {
    Field(name, true, tag, Leaf(k))
  }

  /** `Cfg` of the test file: bool, int, uint, float32 and string fields. */
  const CfgFields: seq<Field> := [
    Tagged("BoolField", "BOOL_FIELD", Bool),
    Tagged("IntField", "INT_FIELD", Int(W64)),
    Tagged("UIntField", "UINT_FIELD", Uint(W64)),
    Tagged("FloatField", "FLOAT_FIELD", Float(F32)),
    Tagged("StringField", "STRING_FIELD", Str)
  ]

  /** The zero value of `Cfg`. */
  const ZeroCfg: Store := map[
    [0] := BoolVal(false), [1] := IntVal(0), [2] := UintVal(0), [3] := FloatVal(0.0), [4] := StrVal("")]

  /** The file the tests write, split into lines: it starts with an empty
      line, pads one entry with spaces, and comments out the float. */
  const FileText: seq<string> := [
    "", "BOOL_FIELD=true", " INT_FIELD = 4 ", "UINT_FIELD= 11", " # FLOAT_FIELD=8.25", "STRING_FIELD=ABC"]

  /** The entries `setupEnv` adds to the environment. */
  const EnvText: seq<string> := [
    "BOOL_FIELD=true", "INT_FIELD=-8", "UINT_FIELD=7", "FLOAT_FIELD=16.5", "STRING_FIELD=32"]

  const CfgDescriptorList: seq<Descriptor> := [
    Descriptor([0], "BOOL_FIELD", Bool), Descriptor([1], "INT_FIELD", Int(W64)),
    Descriptor([2], "UINT_FIELD", Uint(W64)), Descriptor([3], "FLOAT_FIELD", Float(F32)),
    Descriptor([4], "STRING_FIELD", Str)]

  /** Every field of `Cfg` is exported and tagged, so each yields a descriptor
      keyed by its tag, in declaration order. */
  lemma CfgDescriptors()
    ensures ParseStruct(CfgFields) == CfgDescriptorList
  {
    CollectFlat(CfgFields, [], 0);
    assert forall i :: 0 <= i < 5 ==> [] + [0 + i] == [i];
  }

  const FileLinesParsed: seq<Line> := [
    Skipped, Entry("BOOL_FIELD", "true"), Entry("INT_FIELD", "4"), Entry("UINT_FIELD", "11"),
    Skipped, Entry("STRING_FIELD", "ABC")]

  /** Each test line is read in two steps. A `Line…` lemma applies the
      general entry lemmas (`BareEntry`, `PaddedEntry`, `TrimSpacePadded`) to
      the line's parts, and its `…Joined` companion states, with nothing else
      in scope, that those parts concatenate to the literal line. Keeping the
      literal concatenation apart keeps each proof small. The environment
      lines further down follow the same scheme. */
  lemma LineBool()
    ensures ParseLine("BOOL_FIELD=true") == Entry("BOOL_FIELD", "true")
  {
    BareEntry("BOOL_FIELD", "true");
    LineBoolJoined();
  }

  lemma LineBoolJoined()
    ensures "BOOL_FIELD" + "=" + "true" == "BOOL_FIELD=true"
  {
  }

  lemma LineInt()
    ensures ParseLine(" INT_FIELD = 4 ") == Entry("INT_FIELD", "4")
  {
    PaddedEntry(" ", "INT_FIELD", " ", " ", "4", " ");
    LineIntJoined();
  }

  lemma LineIntJoined()
    ensures " " + "INT_FIELD" + " " + "=" + " " + "4" + " " == " INT_FIELD = 4 "
  {
  }

  lemma LineUint()
    ensures ParseLine("UINT_FIELD= 11") == Entry("UINT_FIELD", "11")
  {
    PaddedEntry("", "UINT_FIELD", "", " ", "11", "");
    LineUintJoined();
  }

  lemma LineUintJoined()
    ensures "" + "UINT_FIELD" + "" + "=" + " " + "11" + "" == "UINT_FIELD= 11"
  {
  }

  lemma LineBlank()
    ensures ParseLine("") == Skipped
  {
  }

  lemma LineComment()
    ensures ParseLine(" # FLOAT_FIELD=8.25") == Skipped
  {
    TrimSpacePadded(" ", "# FLOAT_FIELD=8.25", "");
    LineCommentJoined();
  }

  lemma LineCommentJoined()
    ensures " " + "# FLOAT_FIELD=8.25" + "" == " # FLOAT_FIELD=8.25"
  {
  }

  lemma LineString()
    ensures ParseLine("STRING_FIELD=ABC") == Entry("STRING_FIELD", "ABC")
  {
    BareEntry("STRING_FIELD", "ABC");
    LineStringJoined();
  }

  lemma LineStringJoined()
    ensures "STRING_FIELD" + "=" + "ABC" == "STRING_FIELD=ABC"
  {
  }

  const FileVars: map<string, string> :=
    map["BOOL_FIELD" := "true", "INT_FIELD" := "4", "UINT_FIELD" := "11", "STRING_FIELD" := "ABC"]

  /** The classification of one line of a source. */
  lemma LineAt(lines: seq<string>, i: nat, raw: string, l: Line)
    requires i < |lines| && lines[i] == raw && ParseLine(raw) == l
    ensures ParseAll(lines)[i] == l
  {
  }

  /** The lines of the test file, one by one. */
  lemma FileTextLines()
    ensures |FileText| == 6 && FileText[0] == "" && FileText[1] == "BOOL_FIELD=true" && FileText[2] == " INT_FIELD = 4 "
    ensures FileText[3] == "UINT_FIELD= 11" && FileText[4] == " # FLOAT_FIELD=8.25" && FileText[5] == "STRING_FIELD=ABC"
  {
  }

  lemma FileLineParses(i: nat)
    requires i < |FileText|
    ensures ParseAll(FileText)[i] == FileLinesParsed[i]
  {
    FileTextLines();
    if i == 0 {
      LineBlank();
      LineAt(FileText, 0, "", Skipped);
    } else if i == 1 {
      LineBool();
      LineAt(FileText, 1, "BOOL_FIELD=true", Entry("BOOL_FIELD", "true"));
    } else if i == 2 {
      LineInt();
      LineAt(FileText, 2, " INT_FIELD = 4 ", Entry("INT_FIELD", "4"));
    } else if i == 3 {
      LineUint();
      LineAt(FileText, 3, "UINT_FIELD= 11", Entry("UINT_FIELD", "11"));
    } else if i == 4 {
      LineComment();
      LineAt(FileText, 4, " # FLOAT_FIELD=8.25", Skipped);
    } else {
      LineString();
      LineAt(FileText, 5, "STRING_FIELD=ABC", Entry("STRING_FIELD", "ABC"));
    }
  }

  lemma FileTextParses()
    ensures ParseAll(FileText) == FileLinesParsed
  {
    forall i | 0 <= i < |FileText|
      ensures ParseAll(FileText)[i] == FileLinesParsed[i]
    {
      FileLineParses(i);
    }
  }

  lemma FileLinesAccumulate()
    ensures Accumulate(FileLinesParsed) == Ok(FileVars)
  {
    var ls := FileLinesParsed;
    assert ls[..0] == [];
    AccumulateStep(ls, 0);
    AccumulateStep(ls, 1);
    AccumulateStep(ls, 2);
    AccumulateStep(ls, 3);
    AccumulateStep(ls, 4);
    AccumulateStep(ls, 5);
    assert ls[..6] == ls;
  }

  /** The test file reads to four entries: the padded one is trimmed on both
      sides of '=', and the blank line and the commented-out float are skipped. */
  lemma FileTextReads()
    ensures ReadSource(FileText) == Ok(FileVars)
  {
    FileTextParses();
    FileLinesAccumulate();
  }

  /** The environment entries read to a mapping of all five keys. */
  const EnvVars: map<string, string> :=
    map["BOOL_FIELD" := "true", "INT_FIELD" := "-8", "UINT_FIELD" := "7", "FLOAT_FIELD" := "16.5", "STRING_FIELD" := "32"]

  const EnvLinesParsed: seq<Line> := [
    Entry("BOOL_FIELD", "true"), Entry("INT_FIELD", "-8"), Entry("UINT_FIELD", "7"),
    Entry("FLOAT_FIELD", "16.5"), Entry("STRING_FIELD", "32")]

  lemma LineEnvInt()
    ensures ParseLine("INT_FIELD=-8") == Entry("INT_FIELD", "-8")
  {
    BareEntry("INT_FIELD", "-8");
    LineEnvIntJoined();
  }

  lemma LineEnvIntJoined()
    ensures "INT_FIELD" + "=" + "-8" == "INT_FIELD=-8"
  {
  }

  lemma LineEnvUint()
    ensures ParseLine("UINT_FIELD=7") == Entry("UINT_FIELD", "7")
  {
    BareEntry("UINT_FIELD", "7");
    LineEnvUintJoined();
  }

  lemma LineEnvUintJoined()
    ensures "UINT_FIELD" + "=" + "7" == "UINT_FIELD=7"
  {
  }

  lemma LineEnvFloat()
    ensures ParseLine("FLOAT_FIELD=16.5") == Entry("FLOAT_FIELD", "16.5")
  {
    BareEntry("FLOAT_FIELD", "16.5");
    LineEnvFloatJoined();
  }

  lemma LineEnvFloatJoined()
    ensures "FLOAT_FIELD" + "=" + "16.5" == "FLOAT_FIELD=16.5"
  {
  }

  lemma LineEnvString()
    ensures ParseLine("STRING_FIELD=32") == Entry("STRING_FIELD", "32")
  {
    BareEntry("STRING_FIELD", "32");
    LineEnvStringJoined();
  }

  lemma LineEnvStringJoined()
    ensures "STRING_FIELD" + "=" + "32" == "STRING_FIELD=32"
  {
  }

  /** The environment entries, one by one. */
  lemma EnvTextLines()
    ensures |EnvText| == 5 && EnvText[0] == "BOOL_FIELD=true" && EnvText[1] == "INT_FIELD=-8"
    ensures EnvText[2] == "UINT_FIELD=7" && EnvText[3] == "FLOAT_FIELD=16.5" && EnvText[4] == "STRING_FIELD=32"
  {
  }

  lemma EnvLineParses(i: nat)
    requires i < |EnvText|
    ensures ParseAll(EnvText)[i] == EnvLinesParsed[i]
  {
    EnvTextLines();
    if i == 0 {
      LineBool();
      LineAt(EnvText, 0, "BOOL_FIELD=true", Entry("BOOL_FIELD", "true"));
    } else if i == 1 {
      LineEnvInt();
      LineAt(EnvText, 1, "INT_FIELD=-8", Entry("INT_FIELD", "-8"));
    } else if i == 2 {
      LineEnvUint();
      LineAt(EnvText, 2, "UINT_FIELD=7", Entry("UINT_FIELD", "7"));
    } else if i == 3 {
      LineEnvFloat();
      LineAt(EnvText, 3, "FLOAT_FIELD=16.5", Entry("FLOAT_FIELD", "16.5"));
    } else {
      LineEnvString();
      LineAt(EnvText, 4, "STRING_FIELD=32", Entry("STRING_FIELD", "32"));
    }
  }

  lemma EnvTextParses()
    ensures ParseAll(EnvText) == EnvLinesParsed
  {
    forall i | 0 <= i < |EnvText|
      ensures ParseAll(EnvText)[i] == EnvLinesParsed[i]
    {
      EnvLineParses(i);
    }
  }

  lemma EnvLinesAccumulate()
    ensures Accumulate(EnvLinesParsed) == Ok(EnvVars)
  {
    var ls := EnvLinesParsed;
    assert ls[..0] == [];
    AccumulateStep(ls, 0);
    AccumulateStep(ls, 1);
    AccumulateStep(ls, 2);
    AccumulateStep(ls, 3);
    AccumulateStep(ls, 4);
    assert ls[..5] == ls;
  }

  /** Every `setupEnv` entry is well formed and names a distinct key. */
  lemma EnvTextReads()
    ensures ReadSource(EnvText) == Ok(EnvVars)
  {
    EnvTextParses();
    EnvLinesAccumulate();
  }

  /** The conversions the scenarios need. */
  lemma Conversions(parseFloat: FloatParser)
    ensures SetValue(Bool, "true", parseFloat) == Ok(BoolVal(true))
    ensures SetValue(Int(W64), "4", parseFloat) == Ok(IntVal(4))
    ensures SetValue(Int(W64), "-8", parseFloat) == Ok(IntVal(-8))
    ensures SetValue(Uint(W64), "11", parseFloat) == Ok(UintVal(11))
    ensures SetValue(Uint(W64), "7", parseFloat) == Ok(UintVal(7))
  {
    assert Strconv.FormatUint(4) == "4";
    assert Strconv.FormatUint(8) == "8";
    assert Strconv.FormatUint(7) == "7";
    assert Strconv.FormatUint(1) == "1";
    assert Strconv.FormatUint(11) == "11";
    assert Strconv.FormatInt(-8) == "-8";
    SetValueRender(Bool, BoolVal(true), parseFloat);
    SetValueRender(Int(W64), IntVal(4), parseFloat);
    SetValueRender(Int(W64), IntVal(-8), parseFloat);
    SetValueRender(Uint(W64), UintVal(11), parseFloat);
    SetValueRender(Uint(W64), UintVal(7), parseFloat);
  }

  lemma StoreExt(a: Store, b: Store)
    requires forall p :: Get(a, p) == Get(b, p)
    ensures a == b
  {
    assert forall p :: p in a <==> p in b by {
      forall p
        ensures p in a <==> p in b
      {
        assert Get(a, p) == Get(b, p);
      }
    }
    forall p | p in a
      ensures a[p] == b[p]
    {
      assert Get(a, p) == Get(b, p);
    }
  }

  /** A successful load whose per-descriptor outcome and frame match
      `expected` produces exactly `expected`. */
  lemma SettlesTo(fs: seq<Field>, file: FileSource, env: seq<string>, store: Store, parseFloat: FloatParser, expected: Store)
    requires LoadFile(PointerTo(Struct(fs)), file, env, store, parseFloat).failure.None?
    requires LineGrammar.ReadSource(FileLines(file)).Ok? && LineGrammar.ReadSource(env).Ok?
    requires forall d :: d in ParseStruct(fs) ==>
      Get(expected, d.path) ==
        Expected(d, LineGrammar.ReadSource(FileLines(file)).value, LineGrammar.ReadSource(env).value, store, parseFloat)
    requires forall p :: (forall d :: d in ParseStruct(fs) ==> d.path != p) ==> Get(expected, p) == Get(store, p)
    ensures LoadFile(PointerTo(Struct(fs)), file, env, store, parseFloat).store == expected
  {
    LoadFilePrecedence(fs, file, env, store, parseFloat);
    var r := LoadFile(PointerTo(Struct(fs)), file, env, store, parseFloat).store;
    forall p
      ensures Get(r, p) == Get(expected, p)
    {
      if exists d :: d in ParseStruct(fs) && d.path == p {
        var d :| d in ParseStruct(fs) && d.path == p;
      }
    }
    StoreExt(r, expected);
  }

  const CfgFile: Store := map[
    [0] := BoolVal(true), [1] := IntVal(4), [2] := UintVal(11), [3] := FloatVal(0.0), [4] := StrVal("ABC")]

  lemma FileBindSucceeds(parseFloat: FloatParser)
    ensures Bind(CfgDescriptorList, FileVars, ZeroCfg, parseFloat).failure.None?
  {
    var ds := CfgDescriptorList;
    Conversions(parseFloat);
    assert forall i :: 0 <= i < |ds| ==> ds[i].key in FileVars ==> Converts(ds[i], FileVars, parseFloat) by {
      assert "FLOAT_FIELD" !in FileVars;
    }
    BindSucceeds(ds, FileVars, ZeroCfg, parseFloat);
  }

  lemma FileLoadSucceeds(parseFloat: FloatParser)
    ensures LoadFile(PointerTo(Struct(CfgFields)), Contents(FileText), [], ZeroCfg, parseFloat).failure.None?
  {
    CfgDescriptors();
    FileTextReads();
    FileBindSucceeds(parseFloat);
    ReadSourceEmpty();
    NothingPresent(CfgDescriptorList, map[], Bind(CfgDescriptorList, FileVars, ZeroCfg, parseFloat).store, parseFloat);
  }

  lemma FileExpectedAt(parseFloat: FloatParser, i: nat)
    requires i < 5
    ensures Get(CfgFile, CfgDescriptorList[i].path) == Expected(CfgDescriptorList[i], FileVars, map[], ZeroCfg, parseFloat)
  {
    Conversions(parseFloat);
    CfgDescriptorFacts();
    FileVarsFacts();
    CfgFileFacts();
  }

  lemma FileExpected(parseFloat: FloatParser)
    ensures forall d :: d in CfgDescriptorList ==> Get(CfgFile, d.path) == Expected(d, FileVars, map[], ZeroCfg, parseFloat)
  {
    forall i | 0 <= i < 5
      ensures Get(CfgFile, CfgDescriptorList[i].path) == Expected(CfgDescriptorList[i], FileVars, map[], ZeroCfg, parseFloat)
    {
      FileExpectedAt(parseFloat, i);
    }
  }

  lemma CfgFrame(a: Store, b: Store)
    requires forall p :: p in a <==> p in CfgPaths
    requires forall p :: p in b <==> p in CfgPaths
    ensures forall p :: (forall d :: d in CfgDescriptorList ==> d.path != p) ==> Get(a, p) == Get(b, p)
  {
    forall p | forall d :: d in CfgDescriptorList ==> d.path != p
      ensures Get(a, p) == Get(b, p)
    {
      assert forall i :: 0 <= i < 5 ==> CfgDescriptorList[i].path != p;
      assert p !in CfgPaths;
    }
  }

  const CfgPaths: set<Path> := {[0], [1], [2], [3], [4]}

  /** The descriptors of `Cfg`, one by one. */
  lemma CfgDescriptorFacts()
    ensures |CfgDescriptorList| == 5
    ensures CfgDescriptorList[0] == Descriptor([0], "BOOL_FIELD", Bool)
    ensures CfgDescriptorList[1] == Descriptor([1], "INT_FIELD", Int(W64))
    ensures CfgDescriptorList[2] == Descriptor([2], "UINT_FIELD", Uint(W64))
    ensures CfgDescriptorList[3] == Descriptor([3], "FLOAT_FIELD", Float(F32))
    ensures CfgDescriptorList[4] == Descriptor([4], "STRING_FIELD", Str)
  {
  }

  lemma FileVarsFacts()
    ensures FileVars["BOOL_FIELD"] == "true" && FileVars["INT_FIELD"] == "4" && FileVars["UINT_FIELD"] == "11"
    ensures "FLOAT_FIELD" !in FileVars && FileVars["STRING_FIELD"] == "ABC"
  {
  }

  lemma EnvVarsFacts()
    ensures EnvVars["BOOL_FIELD"] == "true" && EnvVars["INT_FIELD"] == "-8" && EnvVars["UINT_FIELD"] == "7"
    ensures EnvVars["FLOAT_FIELD"] == "16.5" && EnvVars["STRING_FIELD"] == "32"
  {
  }

  lemma CfgFileFacts()
    ensures Get(CfgFile, [0]) == Some(BoolVal(true)) && Get(CfgFile, [1]) == Some(IntVal(4))
    ensures Get(CfgFile, [2]) == Some(UintVal(11)) && Get(CfgFile, [3]) == Get(ZeroCfg, [3])
    ensures Get(CfgFile, [4]) == Some(StrVal("ABC"))
  {
  }

  lemma CfgEnvFacts()
    ensures Get(CfgEnv, [0]) == Some(BoolVal(true)) && Get(CfgEnv, [1]) == Some(IntVal(-8))
    ensures Get(CfgEnv, [2]) == Some(UintVal(7)) && Get(CfgEnv, [3]) == Some(FloatVal(16.5))
    ensures Get(CfgEnv, [4]) == Some(StrVal("32"))
  {
  }

  /** The file's values replace the zero values of the fields it names; the
      float, commented out in the file, stays zero. */
  lemma OverrideFromFile(parseFloat: FloatParser)
    ensures LoadFile(PointerTo(Struct(CfgFields)), Contents(FileText), [], ZeroCfg, parseFloat) == Outcome(CfgFile, None)
  {
    CfgDescriptors();
    FileTextReads();
    ReadSourceEmpty();
    FileLoadSucceeds(parseFloat);
    FileExpected(parseFloat);
    CfgFrame(CfgFile, ZeroCfg);
    SettlesTo(CfgFields, Contents(FileText), [], ZeroCfg, parseFloat, CfgFile);
  }

  const CfgEnv: Store := map[
    [0] := BoolVal(true), [1] := IntVal(-8), [2] := UintVal(7), [3] := FloatVal(16.5), [4] := StrVal("32")]

  lemma EnvBindSucceeds(parseFloat: FloatParser, store: Store)
    requires parseFloat("16.5") == Ok(16.5)
    ensures Bind(CfgDescriptorList, EnvVars, store, parseFloat).failure.None?
  {
    var ds := CfgDescriptorList;
    Conversions(parseFloat);
    assert forall i :: 0 <= i < |ds| ==> ds[i].key in EnvVars ==> Converts(ds[i], EnvVars, parseFloat) by {
      assert EnvVars["FLOAT_FIELD"] == "16.5";
    }
    BindSucceeds(ds, EnvVars, store, parseFloat);
  }

  lemma EnvExpectedAt(parseFloat: FloatParser, fileVars: map<string, string>, i: nat)
    requires parseFloat("16.5") == Ok(16.5)
    requires i < 5
    ensures Get(CfgEnv, CfgDescriptorList[i].path) == Expected(CfgDescriptorList[i], fileVars, EnvVars, ZeroCfg, parseFloat)
  {
    Conversions(parseFloat);
    CfgDescriptorFacts();
    EnvVarsFacts();
    CfgEnvFacts();
  }

  lemma EnvExpected(parseFloat: FloatParser, fileVars: map<string, string>)
    requires parseFloat("16.5") == Ok(16.5)
    ensures forall d :: d in CfgDescriptorList ==> Get(CfgEnv, d.path) == Expected(d, fileVars, EnvVars, ZeroCfg, parseFloat)
  {
    forall i | 0 <= i < 5
      ensures Get(CfgEnv, CfgDescriptorList[i].path) == Expected(CfgDescriptorList[i], fileVars, EnvVars, ZeroCfg, parseFloat)
    {
      EnvExpectedAt(parseFloat, fileVars, i);
    }
  }

  lemma AllLoadSucceeds(parseFloat: FloatParser)
    requires parseFloat("16.5") == Ok(16.5)
    ensures LoadFile(PointerTo(Struct(CfgFields)), Contents(FileText), EnvText, ZeroCfg, parseFloat).failure.None?
  {
    CfgDescriptors();
    FileTextReads();
    EnvTextReads();
    FileBindSucceeds(parseFloat);
    EnvBindSucceeds(parseFloat, Bind(CfgDescriptorList, FileVars, ZeroCfg, parseFloat).store);
  }

  lemma EnvLoadSucceeds(parseFloat: FloatParser)
    requires parseFloat("16.5") == Ok(16.5)
    ensures LoadFile(PointerTo(Struct(CfgFields)), Missing, EnvText, ZeroCfg, parseFloat).failure.None?
  {
    CfgDescriptors();
    EnvTextReads();
    EnvBindSucceeds(parseFloat, ZeroCfg);
  }

  /** With both the file and the environment defining every key, the
      environment wins for each field. */
  lemma OverrideAll(parseFloat: FloatParser)
    requires parseFloat("16.5") == Ok(16.5)
    ensures LoadFile(PointerTo(Struct(CfgFields)), Contents(FileText), EnvText, ZeroCfg, parseFloat) == Outcome(CfgEnv, None)
  {
    CfgDescriptors();
    FileTextReads();
    EnvTextReads();
    AllLoadSucceeds(parseFloat);
    EnvExpected(parseFloat, FileVars);
    EnvFrame();
    SettlesTo(CfgFields, Contents(FileText), EnvText, ZeroCfg, parseFloat, CfgEnv);
  }

  /** Without a file, the environment alone sets every field. */
  lemma OverrideFromEnv(parseFloat: FloatParser)
    requires parseFloat("16.5") == Ok(16.5)
    ensures LoadFile(PointerTo(Struct(CfgFields)), Missing, EnvText, ZeroCfg, parseFloat) == Outcome(CfgEnv, None)
  {
    CfgDescriptors();
    EnvTextReads();
    MissingReadsEmpty();
    EnvLoadSucceeds(parseFloat);
    EnvExpected(parseFloat, map[]);
    EnvFrame();
    SettlesTo(CfgFields, Missing, EnvText, ZeroCfg, parseFloat, CfgEnv);
  }

  lemma MissingReadsEmpty()
    ensures LineGrammar.ReadSource(FileLines(Missing)) == Ok(map[])
  {
    ReadSourceEmpty();
  }

  /** `CfgEnv` differs from `ZeroCfg` only at paths some descriptor reaches. */
  lemma EnvFrame()
    ensures forall p :: (forall d :: d in CfgDescriptorList ==> d.path != p) ==> Get(CfgEnv, p) == Get(ZeroCfg, p)
  {
    CfgFrame(CfgEnv, ZeroCfg);
  }

  /** The `Cfg` of the field-visibility test: an untagged field, a field
      with an empty tag, an unexported tagged field, and one bindable field. */
  const VisibilityFields: seq<Field> := [
    Field("BoolField", true, "", Leaf(Bool)),
    Field("IntField", true, "", Leaf(Int(W64))),
    Field("floatField", false, "FLOAT_FIELD", Leaf(Float(F32))),
    Tagged("StringField", "STRING_FIELD", Str)
  ]

  const ZeroVisibility: Store := map[[0] := BoolVal(false), [1] := IntVal(0), [2] := FloatVal(0.0), [3] := StrVal("")]

  lemma VisibilityDescriptors()
    ensures ParseStruct(VisibilityFields) == [Descriptor([3], "STRING_FIELD", Str)]
  {
    var fs := VisibilityFields;
    var f3 := [fs[3]];
    assert fs[1..][1..][1..] == f3 && f3[1..] == [];
    assert [] + [3] == [3];
    assert Collect(f3, [], 3) == [Descriptor([3], "STRING_FIELD", Str)] + Collect([], [], 4);
    assert Collect(fs[1..][1..], [], 2) == Collect(f3, [], 3);
    assert Collect(fs[1..], [], 1) == Collect(fs[1..][1..], [], 2);
  }

  lemma VisibilityBind(parseFloat: FloatParser)
    ensures Bind([Descriptor([3], "STRING_FIELD", Str)], EnvVars, ZeroVisibility, parseFloat) ==
      Outcome(ZeroVisibility[[3] := StrVal("32")], None)
  {
    var ds := [Descriptor([3], "STRING_FIELD", Str)];
    assert EnvVars["STRING_FIELD"] == "32";
    assert ds[1..] == [];
    assert Bind(ds, EnvVars, ZeroVisibility, parseFloat) == Bind([], EnvVars, ZeroVisibility[[3] := StrVal("32")], parseFloat);
  }

  /** Only the exported field with a non-empty tag is loaded, although the
      environment defines a key for every field. */
  lemma FieldVisibility(parseFloat: FloatParser)
    ensures LoadFile(PointerTo(Struct(VisibilityFields)), Missing, EnvText, ZeroVisibility, parseFloat) ==
      Outcome(ZeroVisibility[[3] := StrVal("32")], None)
  {
    VisibilityDescriptors();
    EnvTextReads();
    VisibilityBind(parseFloat);
  }

  /** The nested-struct test: a tagged bool and a struct-typed field whose
      own field is tagged. */
  const NestedFields: seq<Field> := [
    Tagged("Field", "BOOL_FIELD", Bool),
    Field("More", true, "", Struct([Tagged("Field", "INT_FIELD", Int(W64))]))
  ]

  const ZeroNested: Store := map[[0] := BoolVal(false), [1, 0] := IntVal(0)]

  lemma NestedDescriptors()
    ensures ParseStruct(NestedFields) == [Descriptor([0], "BOOL_FIELD", Bool), Descriptor([1, 0], "INT_FIELD", Int(W64))]
  {
    var fs := NestedFields;
    var sub := [Tagged("Field", "INT_FIELD", Int(W64))];
    assert sub[1..] == [] && fs[1..][1..] == [];
    assert [1] + [0] == [1, 0] && [] + [1] == [1] && [] + [0] == [0];
    assert Collect(sub, [1], 0) == [Descriptor([1, 0], "INT_FIELD", Int(W64))] + Collect([], [1], 1);
    assert Collect(fs[1..], [], 1) == Collect(sub, [1], 0) + Collect([], [], 2);
  }

  lemma NestedBind(parseFloat: FloatParser)
    ensures Bind([Descriptor([0], "BOOL_FIELD", Bool), Descriptor([1, 0], "INT_FIELD", Int(W64))], EnvVars, ZeroNested, parseFloat) ==
      Outcome(map[[0] := BoolVal(true), [1, 0] := IntVal(-8)], None)
  {
    Conversions(parseFloat);
    var ds := [Descriptor([0], "BOOL_FIELD", Bool), Descriptor([1, 0], "INT_FIELD", Int(W64))];
    var s1 := ZeroNested[[0] := BoolVal(true)];
    var s2 := s1[[1, 0] := IntVal(-8)];
    assert EnvVars["BOOL_FIELD"] == "true" && EnvVars["INT_FIELD"] == "-8";
    assert ds[1..] == [ds[1]] && ds[1..][1..] == [];
    assert Bind(ds, EnvVars, ZeroNested, parseFloat) == Bind(ds[1..], EnvVars, s1, parseFloat);
    assert Bind(ds[1..], EnvVars, s1, parseFloat) == Bind([], EnvVars, s2, parseFloat);
    assert s2 == map[[0] := BoolVal(true), [1, 0] := IntVal(-8)];
  }

  /** A field of a nested struct is loaded like a top-level one, at its path
      inside the nested struct. */
  lemma NestedStruct(parseFloat: FloatParser)
    ensures LoadFile(PointerTo(Struct(NestedFields)), Missing, EnvText, ZeroNested, parseFloat) ==
      Outcome(map[[0] := BoolVal(true), [1, 0] := IntVal(-8)], None)
  {
    NestedDescriptors();
    EnvTextReads();
    NestedBind(parseFloat);
  }
}
