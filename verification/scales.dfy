/** A scale: one Lua script file that answers one chat command. The Lua
    runtime (MoonSharp) is replaced by oracles: a string hash, a loader
    that either runs a script's text or reports an error message, a call
    into the script's `plugin` function, and the conversion of a returned
    value to a string. */
module Scales {
  import opened Outcomes
  import opened Text
  import opened FilePaths

  /** The file system as a scale sees it: the content of every existing file. */
  type Files = map<string, string>

  /** A value returned by a Lua call. `Nil` and `Void` are the two kinds
      IsNil() accepts; a table is given by its values in iteration order;
      every other value is a scalar known only through `CastToString`. */
  datatype DynValue = Nil | Void | Table(values: seq<DynValue>) | Scalar(tag: int)

  /** Running a script's text in a fresh runtime either completes or
      throws with a message. */
  datatype Compiled = Compiles | Fails(message: string)

  /** The parts of the runtime the scale logic depends on. `hash` is
      string.GetHashCode. */
  datatype Lua = Lua(hash: string -> int, compile: string -> Compiled)

  /** A `Script` object: the text it was asked to run and whether running
      it completed. */
  datatype Runtime = Runtime(source: string, loaded: bool)

  /** A scale: its file, its runtime (`None` until one is created) and the
      hash of the text that was last loaded successfully. */
  datatype Scale = Scale(path: string, env: Option<Runtime>, lastHash: int)

  /** Scale.Name: the file name without its extension, trimmed. */
  function Name(s: Scale): string {
    Trim(FileStem(s.path))
  }

  /** A name holds no separator and has no white space at either end. */
  lemma NameShape(s: Scale)
    ensures var r := Name(s);
            && '/' !in r
            && (r == [] || (!IsWhiteSpace(r[0]) && !IsWhiteSpace(r[|r| - 1])))
  {
    FileStemShape(s.path);
    TrimWithin(FileStem(s.path));
  }

  /** A scale stored as `dir + stem + ".lua"` is named by its trimmed stem. */
  lemma NameOfScaleFile(dir: string, stem: string, s: Scale)
    requires |dir| > 0 && dir[|dir| - 1] == '/' && '/' !in stem
    requires s.path == dir + stem + ".lua"
    ensures Name(s) == Trim(stem)
  {
    assert ".lua"[1..] == "lua";
    StemUnderDirectory(dir, stem, ".lua");
  }

  /** What one VerifyRefreshed call leaves: the scale, whether it created a
      runtime and ran the text, and the exception that escaped, if any. */
  datatype Refresh = Refresh(scale: Scale, compiled: bool, fault: Option<string>)

  /** Scale.VerifyRefreshed: read the file, and when its hash differs from
      the recorded one, replace the runtime by a fresh one and run the
      text in it; the hash is recorded only once the text has run. */
  function VerifyRefreshed(s: Scale, files: Files, lua: Lua): (r: Refresh)
    ensures r.scale.path == s.path
    ensures s.path !in files ==> r == Refresh(s, false, Some(FileNotFound))
    ensures r.compiled <==> s.path in files && lua.hash(files[s.path]) != s.lastHash
    ensures !r.compiled ==> r.scale == s
    ensures r.fault.None? <==>
              s.path in files && (!r.compiled || lua.compile(files[s.path]).Compiles?)
    ensures r.fault.None? ==> r.scale.lastHash == lua.hash(files[s.path])
    ensures r.compiled ==>
              && r.scale.env == Some(Runtime(files[s.path], r.fault.None?))
              && (r.fault.Some? ==> r.scale.lastHash == s.lastHash
                                     && r.fault == Some(lua.compile(files[s.path]).message))
  {
    if s.path !in files then Refresh(s, false, Some(FileNotFound))
    else
      var raw := files[s.path];
      var h := lua.hash(raw);
      if s.lastHash == h then Refresh(s, false, None)
      else
        match lua.compile(raw)
        case Compiles => Refresh(s.(env := Some(Runtime(raw, true)), lastHash := h), true, None)
        case Fails(m) => Refresh(s.(env := Some(Runtime(raw, false))), true, Some(m))
  }

  /** A second VerifyRefreshed on unchanged files leaves the scale as the
      first left it and reports the same outcome; after a successful first
      call it does not run the script again. */
  lemma RefreshIdempotent(s: Scale, files: Files, lua: Lua)
    ensures var r1 := VerifyRefreshed(s, files, lua);
            var r2 := VerifyRefreshed(r1.scale, files, lua);
            && r2.scale == r1.scale
            && r2.fault == r1.fault
            && (r1.fault.None? ==> !r2.compiled)
  {
  }

  /** A text that fails to run is run again by every later call: its hash
      is never recorded. */
  lemma FailedTextRetried(s: Scale, files: Files, lua: Lua)
    requires s.path in files && lua.hash(files[s.path]) != s.lastHash
    requires lua.compile(files[s.path]).Fails?
    ensures VerifyRefreshed(VerifyRefreshed(s, files, lua).scale, files, lua).compiled
  {
  }

  /** Two texts with the same hash are indistinguishable: editing a file
      into a text that collides with the loaded one reloads nothing. */
  lemma HashCollisionNotReloaded(s: Scale, files: Files, text: string, lua: Lua)
    requires s.lastHash == lua.hash(text)
    ensures VerifyRefreshed(s, files[s.path := text], lua) == Refresh(s, false, None)
  {
  }

  /** new Scale(path): a scale with no runtime and hash 0, refreshed once;
      an exception from the refresh escapes the constructor. */
  function NewScale(path: string, files: Files, lua: Lua): (r: Outcome<Scale>)
    ensures r.Ok? <==>
              path in files && (lua.hash(files[path]) == 0 || lua.compile(files[path]).Compiles?)
    ensures r.Ok? ==> r.value.path == path && r.value.lastHash == lua.hash(files[path])
    ensures r.Ok? ==> (r.value.env.None? <==> lua.hash(files[path]) == 0)
  {
    var rf := VerifyRefreshed(Scale(path, None, 0), files, lua);
    if rf.fault.Some? then Fault(rf.fault.value) else Ok(rf.scale)
  }

  /** IsNil(): true of both nil kinds. */
  predicate IsNil(v: DynValue) {
    v.Nil? || v.Void?
  }

  /** What DoPlugin promises about its list: null for a nil result, one
      string per table value in iteration order for a table, and a single
      string for anything else. */
  predicate NormalisedFrom(res: DynValue, castToString: DynValue -> Option<string>,
                           out: Option<seq<Option<string>>>)
  {
    && (out.None? <==> IsNil(res))
    && (res.Table? ==> out.Some? && |out.value| == |res.values|
                       && forall i :: 0 <= i < |res.values| ==> out.value[i] == castToString(res.values[i]))
    && (!res.Table? && !IsNil(res) ==> out == Some([castToString(res)]))
  }

  /** The conversion at the end of DoPlugin. */
  method Normalise(res: DynValue, castToString: DynValue -> Option<string>)
    returns (out: Option<seq<Option<string>>>)
    ensures NormalisedFrom(res, castToString, out)
  {
    if IsNil(res) {
      return None;
    }
    var output: seq<Option<string>> := [];
    if res.Table? {
      var k := 0;
      while k < |res.values|
        invariant 0 <= k <= |res.values|
        invariant |output| == k
        invariant forall i :: 0 <= i < k ==> output[i] == castToString(res.values[i])
      {
        output := output + [castToString(res.values[k])];
        k := k + 1;
      }
    } else {
      output := [castToString(res)];
    }
    return Some(output);
  }

  /** A nil result is null, which is different from the empty list an
      empty table gives. */
  lemma NilIsNotEmptyTable(castToString: DynValue -> Option<string>, out1: Option<seq<Option<string>>>,
                           out2: Option<seq<Option<string>>>)
    requires NormalisedFrom(Nil, castToString, out1)
    requires NormalisedFrom(Table([]), castToString, out2)
    ensures out1 == None && out2 == Some([])
  {
  }

  /** Scale.DoPlugin(isIndicated, message): call the script's `plugin`
      with both arguments and normalise what it returns. A scale without a
      runtime throws, and so does a call the runtime rejects. */
  method DoPlugin(s: Scale, isIndicated: bool, message: string,
                  call: (Runtime, bool, string) -> Outcome<DynValue>,
                  castToString: DynValue -> Option<string>)
    returns (r: Outcome<Option<seq<Option<string>>>>)
    ensures s.env.None? ==> r == Fault(NullReference)
    ensures s.env.Some? && call(s.env.value, isIndicated, message).Fault? ==>
              r == Fault(call(s.env.value, isIndicated, message).error)
    ensures s.env.Some? && call(s.env.value, isIndicated, message).Ok? ==>
              r.Ok? && NormalisedFrom(call(s.env.value, isIndicated, message).value, castToString, r.value)
  {
    if s.env.None? {
      return Fault(NullReference);
    }
    var res := call(s.env.value, isIndicated, message);
    if res.Fault? {
      return Fault(res.error);
    }
    var out := Normalise(res.value, castToString);
    return Ok(out);
  }
}
