/** `LoadFile`: check the target, describe its fields, apply the file, then
    apply the process environment on top. The file system and the
    environment are inputs: the file as what opening and scanning it yields,
    the environment as its `KEY=value` entries. */
module Loader {
  import opened Outcomes
  import opened Schema
  import opened Coercion
  import opened Binding
  import LineGrammar

  /** What `reflect.ValueOf(to)` can reveal about the argument. */
  datatype Target =
    /** A nil interface: the reflected value is not valid. */
    | NilInterface
    /** A value of some kind other than pointer, with that kind's name. */
    | NotPointer(kind: string)
    /** A nil pointer: there is nothing to point at. */
    | NilPointer
    /** A non-nil pointer to a value of the given shape. */
    | PointerTo(elem: Shape)

  /** What opening and scanning the named file yields. */
  datatype FileSource =
    /** The file does not exist. */
    | Missing
    /** The file exists but could not be opened. */
    | Unreadable(message: string)
    /** The lines the scanner hands out. */
    | Contents(lines: seq<string>)

  /** The target is a non-nil pointer to a struct. */
  predicate ValidTarget(t: Target) {
    t.PointerTo? && t.elem.Struct?
  }

  /** `loadFromFile`, with the caller's rule that a failure is ignored when
      the file does not exist. */
  function LoadFromFile(file: FileSource, ds: seq<Descriptor>, store: Store, parseFloat: FloatParser): Outcome {
    match file
    case Missing => Outcome(store, None)
    case Unreadable(m) => Outcome(store, Some(FileError(m)))
    case Contents(lines) => LoadFromSource(lines, ds, store, parseFloat)
  }

  /** `LoadFile(filename, to)`. */
  function LoadFile(target: Target, file: FileSource, env: seq<string>, store: Store, parseFloat: FloatParser): Outcome {
    if !ValidTarget(target) then Outcome(store, Some(InvalidTarget))
    else
      var ds := ParseStruct(target.elem.fields);
      var afterFile := LoadFromFile(file, ds, store, parseFloat);
      if afterFile.failure.Some? then afterFile
      else LoadFromSource(env, ds, afterFile.store, parseFloat)
  }

  /** The lines the file contributes; a missing file contributes none. */
  function FileLines(file: FileSource): seq<string> {
    if file.Contents? then file.lines else []
  }

  /** A target that is not a non-nil pointer to a struct is rejected before
      anything is read or written. */
  lemma InvalidTargetRejected(target: Target, file: FileSource, env: seq<string>, store: Store, parseFloat: FloatParser)
    requires ParsesLikeStrconv(parseFloat)
    ensures !ValidTarget(target) <==> LoadFile(target, file, env, store, parseFloat) == Outcome(store, Some(InvalidTarget))
  {
    if ValidTarget(target) {
      var ds := ParseStruct(target.elem.fields);
      var afterFile := LoadFromFile(file, ds, store, parseFloat);
      LoadFromSourceNotInvalid(FileLines(file), ds, store, parseFloat);
      LoadFromSourceNotInvalid(env, ds, afterFile.store, parseFloat);
    }
  }

  /** A pass over a source never reports an invalid target. */
  lemma LoadFromSourceNotInvalid(lines: seq<string>, ds: seq<Descriptor>, store: Store, parseFloat: FloatParser)
    requires ParsesLikeStrconv(parseFloat)
    ensures LoadFromSource(lines, ds, store, parseFloat).failure != Some(InvalidTarget)
  {
    LineGrammar.ReadSourceFails(lines);
    if LineGrammar.ReadSource(lines).Ok? {
      var vars := LineGrammar.ReadSource(lines).value;
      BindFails(ds, vars, store, parseFloat);
      if Bind(ds, vars, store, parseFloat).failure.Some? {
        var i :| FailsAt(ds, vars, parseFloat, i);
        SetValueErrors(ds[i].kind, vars[ds[i].key], parseFloat);
      }
    }
  }

  /** A missing file behaves exactly like an empty one. */
  lemma MissingFileIsEmpty(target: Target, env: seq<string>, store: Store, parseFloat: FloatParser)
    ensures LoadFile(target, Missing, env, store, parseFloat) == LoadFile(target, Contents([]), env, store, parseFloat)
  {
    if ValidTarget(target) {
      LineGrammar.ReadSourceEmpty();
      NothingPresent(ParseStruct(target.elem.fields), map[], store, parseFloat);
    }
  }

  /** A file that cannot be read for a reason other than its absence ends the
      load with that error before any field is written; the environment is not
      consulted. */
  lemma UnreadableFileStops(target: Target, m: string, env: seq<string>, store: Store, parseFloat: FloatParser)
    requires ValidTarget(target)
    ensures LoadFile(target, Unreadable(m), env, store, parseFloat) == Outcome(store, Some(FileError(m)))
  {
  }

  /** When the file pass fails, the environment makes no difference: the
      result is whatever the file pass left behind. */
  lemma FileFailureIgnoresEnv(target: Target, file: FileSource, env1: seq<string>, env2: seq<string>, store: Store, parseFloat: FloatParser)
    requires ValidTarget(target)
    requires LoadFromFile(file, ParseStruct(target.elem.fields), store, parseFloat).failure.Some?
    ensures LoadFile(target, file, env1, store, parseFloat) == LoadFile(target, file, env2, store, parseFloat)
    ensures LoadFile(target, file, env1, store, parseFloat).failure.Some?
  {
  }

  /** A malformed line in the file fails the load with that line and leaves
      every field as it was. */
  lemma MalformedFileChangesNothing(target: Target, lines: seq<string>, env: seq<string>, store: Store, parseFloat: FloatParser, i: nat)
    requires ValidTarget(target)
    requires i < |lines| && LineGrammar.ParseLine(lines[i]).Malformed?
    ensures LoadFile(target, Contents(lines), env, store, parseFloat).store == store
    ensures LoadFile(target, Contents(lines), env, store, parseFloat).failure.Some?
    ensures LoadFile(target, Contents(lines), env, store, parseFloat).failure.value.MalformedLine?
  {
    MalformedSourceChangesNothing(lines, ParseStruct(target.elem.fields), store, parseFloat, i);
  }

  /** The value a descriptor ends up with after a successful load: the
      environment's text if it has the key, else the file's, else the value
      the field held before. The conversion guards never decide anything
      after a successful load, because by `LoadFileConverts` every present
      key's text converts. */
  function Expected(d: Descriptor, fileVars: map<string, string>, envVars: map<string, string>, store: Store, parseFloat: FloatParser): Option<Value> {
    if d.key in envVars && SetValue(d.kind, envVars[d.key], parseFloat).Ok? then Some(SetValue(d.kind, envVars[d.key], parseFloat).value)
    else if d.key in fileVars && SetValue(d.kind, fileVars[d.key], parseFloat).Ok? then Some(SetValue(d.kind, fileVars[d.key], parseFloat).value)
    else Get(store, d.path)
  }

  /** Precedence: after a successful load both sources read, and each field
      holds the value from the environment if it defines the field's key,
      otherwise from the file, otherwise the value it held before. Fields no
      descriptor reaches are never written. */
  lemma LoadFilePrecedence(fs: seq<Field>, file: FileSource, env: seq<string>, store: Store, parseFloat: FloatParser)
    requires LoadFile(PointerTo(Struct(fs)), file, env, store, parseFloat).failure.None?
    ensures !file.Unreadable?
    ensures LineGrammar.ReadSource(FileLines(file)).Ok? && LineGrammar.ReadSource(env).Ok?
    ensures forall d :: d in ParseStruct(fs) && d.key in LineGrammar.ReadSource(FileLines(file)).value ==>
      SetValue(d.kind, LineGrammar.ReadSource(FileLines(file)).value[d.key], parseFloat).Ok?
    ensures forall d :: d in ParseStruct(fs) && d.key in LineGrammar.ReadSource(env).value ==>
      SetValue(d.kind, LineGrammar.ReadSource(env).value[d.key], parseFloat).Ok?
    ensures forall d :: d in ParseStruct(fs) ==>
      Get(LoadFile(PointerTo(Struct(fs)), file, env, store, parseFloat).store, d.path) ==
        Expected(d, LineGrammar.ReadSource(FileLines(file)).value, LineGrammar.ReadSource(env).value, store, parseFloat)
    ensures forall p :: (forall d :: d in ParseStruct(fs) ==> d.path != p) ==>
      Get(LoadFile(PointerTo(Struct(fs)), file, env, store, parseFloat).store, p) == Get(store, p)
  {
    LoadFileConverts(fs, file, env, store, parseFloat);
    var target := PointerTo(Struct(fs));
    var ds := ParseStruct(fs);
    ParseStructOrdered(fs);
    assert DistinctPaths(ds);
    MissingFileIsEmpty(target, env, store, parseFloat);
    var fileLines := FileLines(file);
    assert LineGrammar.ReadSource(fileLines).Ok? by {
      if file.Missing? {
        LineGrammar.ReadSourceEmpty();
      }
    }
    var fileVars := LineGrammar.ReadSource(fileLines).value;
    var s1 := Bind(ds, fileVars, store, parseFloat);
    assert LoadFromFile(file, ds, store, parseFloat) == LoadFromSource(fileLines, ds, store, parseFloat) == s1 by {
      if file.Missing? {
        NothingPresent(ds, map[], store, parseFloat);
      }
    }
    var envVars := LineGrammar.ReadSource(env).value;
    var s2 := Bind(ds, envVars, s1.store, parseFloat);
    assert LoadFile(target, file, env, store, parseFloat) == s2;
    BindApplies(ds, fileVars, store, parseFloat);
    BindApplies(ds, envVars, s1.store, parseFloat);
    forall d | d in ParseStruct(fs)
      ensures Get(s2.store, d.path) == Expected(d, fileVars, envVars, store, parseFloat)
    {
      var i :| 0 <= i < |ds| && ds[i] == d;
    }
    forall p | forall d :: d in ParseStruct(fs) ==> d.path != p
      ensures Get(s2.store, p) == Get(store, p)
    {
      BindFrame(ds, fileVars, store, parseFloat, p);
      BindFrame(ds, envVars, s1.store, parseFloat, p);
    }
  }

  /** A successful call leaves no present key unconverted: every key a
      descriptor reads from the file or from the environment held text that
      converts to the descriptor's kind. Otherwise the pass over that source
      would have stopped with the conversion error. */
  lemma LoadFileConverts(fs: seq<Field>, file: FileSource, env: seq<string>, store: Store, parseFloat: FloatParser)
    requires LoadFile(PointerTo(Struct(fs)), file, env, store, parseFloat).failure.None?
    ensures LineGrammar.ReadSource(FileLines(file)).Ok? && LineGrammar.ReadSource(env).Ok?
    ensures forall d :: d in ParseStruct(fs) && d.key in LineGrammar.ReadSource(FileLines(file)).value ==>
      SetValue(d.kind, LineGrammar.ReadSource(FileLines(file)).value[d.key], parseFloat).Ok?
    ensures forall d :: d in ParseStruct(fs) && d.key in LineGrammar.ReadSource(env).value ==>
      SetValue(d.kind, LineGrammar.ReadSource(env).value[d.key], parseFloat).Ok?
  {
    var ds := ParseStruct(fs);
    var fileLines := FileLines(file);
    if file.Missing? {
      LineGrammar.ReadSourceEmpty();
    }
    var fileVars := LineGrammar.ReadSource(fileLines).value;
    var s1 := Bind(ds, fileVars, store, parseFloat);
    assert LoadFromFile(file, ds, store, parseFloat) == s1 by {
      if file.Missing? {
        NothingPresent(ds, map[], store, parseFloat);
      }
    }
    var envVars := LineGrammar.ReadSource(env).value;
    assert LoadFile(PointerTo(Struct(fs)), file, env, store, parseFloat) == Bind(ds, envVars, s1.store, parseFloat);
    BindSucceeds(ds, fileVars, store, parseFloat);
    BindSucceeds(ds, envVars, s1.store, parseFloat);
    forall d | d in ds && d.key in fileVars
      ensures SetValue(d.kind, fileVars[d.key], parseFloat).Ok?
    {
      var i :| 0 <= i < |ds| && ds[i] == d;
    }
    forall d | d in ds && d.key in envVars
      ensures SetValue(d.kind, envVars[d.key], parseFloat).Ok?
    {
      var i :| 0 <= i < |ds| && ds[i] == d;
    }
  }
}
