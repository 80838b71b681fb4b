/** The `scale` command family: the only commands built into the bot. Each
    verb answers with a reply and may change the list of scales and the
    files under the scales directory. */
module ScaleVerbs {
  import opened Outcomes
  import opened Text
  import opened FilePaths
  import opened Scales
  import opened SourceExtraction

  /** The directory every scale file lives in. */
  const ScalesDir := "scales/"

  /** The answers the verbs give, one per reply text; Render spells each out. */
  datatype Reply =
    | Guide
    | Dump(text: string)
    | CatMissing(file: string)
    | DoesNotRun(message: string)
    | CannotMake(message: string)
    | Created(name: string, count: nat)
    | NoNameToRemove
    | NotAScale(path: string)
    | Deleted(path: string, left: nat)
    | RemoveMissing(file: string)
    | OnlyDefaults
    | Listed(scales: seq<Scale>)
    | TryList

  /** What one verb leaves: its answer, the scales and the files. */
  datatype Effect = Effect(reply: Reply, scales: seq<Scale>, files: Files)

  /** "1 scale", "2 scales": the count followed by a singular or plural noun. */
  function Counted(n: nat): string {
    NatToString(n) + (if n > 1 then " scales" else " scale")
  }

  // ---------------------------------------------------------------------
  // help

  predicate IsHelp(sub: string) {
    sub == "help" || sub == "guide" || sub == "how" || sub == "howto" || sub == "new" || sub == "?"
  }

  /** The guide the help verb sends: how to call add, and a sample script. */
  function HowTo(ind: string): string {
    "To add a new scale, you'll want to make sure you use the `" + ind + "scale add <name>` command.\n"
    + "Here's some boilerplate for adding a new scale that you can copy and paste!\n"
    + "` " + ind + "scale add Poke`\n"
    + "```lua\n"
    + "-- Since this is named Poke, 'poke' is the required command word. It's case insensitive.\n"
    + "function plugin(msg)\n"
    + "\tif msg == \"snoot\" then\n"
    + "\t\treturn \"blep\";\n"
    + "\telse\n"
    + "\t\treturn \"hiss\";\n"
    + "\tend\n"
    + "end\n"
    + "```\n"
  }

  // ---------------------------------------------------------------------
  // cat

  predicate IsCat(sub: string) {
    sub == "cat" || sub == "type" || sub == "print" || sub == "dump"
  }

  /** The file name cat looks for: the argument as typed when it holds
      ".lua", otherwise the trimmed argument with ".lua" appended. */
  function CatFile(args: string): string {
    if Contains(args, ".lua") then args else Trim(args) + ".lua"
  }

  /** The cat verb: the file's text inside a code block, or a not-found
      message. Its argument is never null, so the "nothing to print" reply
      cannot happen. */
  function Cat(args: string, files: Files): Reply {
    var path := Combine(ScalesDir, CatFile(args));
    if path in files then Dump(files[path]) else CatMissing(CatFile(args))
  }

  // ---------------------------------------------------------------------
  // add

  /** The file add writes: the trimmed name, with ".lua" appended unless
      the name already holds ".lua". */
  function AddPath(name: string): string {
    Combine(ScalesDir, Trim(name) + (if Contains(name, ".lua") then "" else ".lua"))
  }

  /** The add verb: cut the name and the script out of the arguments, run
      the script once in a scratch runtime, then write it to its file and
      append a new scale for it. */
  function Add(args: string, ss: seq<Scale>, files: Files, lua: Lua): Outcome<Effect> {
    match Extract(args)
    case Fault(err) => Fault(err)
    case Ok(e) =>
      match lua.compile(e.source)
      case Fails(m) =>
        Ok(Effect(DoesNotRun(m), ss, files))
      case Compiles =>
        var path := AddPath(e.name);
        var written := files[path := e.source];
        match NewScale(path, written, lua)
        case Fault(m) => Ok(Effect(CannotMake(m), ss, written))
        case Ok(s) =>
          var grown := ss + [s];
          Ok(Effect(Created(e.name, |grown|), grown, written))
  }

  /** Add throws exactly when its arguments cannot be parsed, and then
      with ArgumentOutOfRangeException. */
  lemma AddFaults(args: string, ss: seq<Scale>, files: Files, lua: Lua)
    ensures Add(args, ss, files, lua).Fault? <==> Extract(args).Fault?
    ensures Add(args, ss, files, lua).Fault? ==> Add(args, ss, files, lua) == Fault(OutOfRange)
  {
  }

  /** A script that fails to run is refused with the runtime's message,
      and neither the scales nor the files change. */
  lemma AddRefusesFailingScript(args: string, ss: seq<Scale>, files: Files, lua: Lua)
    requires Extract(args).Ok? && lua.compile(Extract(args).value.source).Fails?
    ensures var r := Add(args, ss, files, lua);
            && r.Ok? && r.value.scales == ss && r.value.files == files
            && r.value.reply == DoesNotRun(lua.compile(Extract(args).value.source).message)
  {
  }

  /** A script that runs is written to the file its name gives, and a scale
      for that file, loaded from it, is appended behind every existing one:
      no scale with the same name is looked for. */
  lemma AddAppends(args: string, ss: seq<Scale>, files: Files, lua: Lua)
    requires Extract(args).Ok? && lua.compile(Extract(args).value.source).Compiles?
    ensures var r := Add(args, ss, files, lua);
            var e := Extract(args).value;
            && r.Ok?
            && r.value.reply == Created(e.name, |ss| + 1)
            && r.value.files == files[AddPath(e.name) := e.source]
            && |r.value.scales| == |ss| + 1
            && r.value.scales[..|ss|] == ss
            && r.value.scales[|ss|].path == AddPath(e.name)
            && r.value.scales[|ss|].lastHash == lua.hash(e.source)
            && (r.value.scales[|ss|].env.None? <==> lua.hash(e.source) == 0)
  {
    var e := Extract(args).value;
    var written := files[AddPath(e.name) := e.source];
    assert NewScale(AddPath(e.name), written, lua).Ok?;
  }

  // ---------------------------------------------------------------------
  // remove

  /** How remove compares a scale with the name asked for. */
  function RemoveKey(s: Scale): string {
    Trim(LowerStr(Name(s)))
  }

  /** The name remove looks for: the argument lower-cased and trimmed. */
  function RemoveName(args: string): string {
    Trim(LowerStr(args))
  }

  /** The file name remove looks for: the argument as typed when it holds
      ".lua", otherwise the name looked for with ".lua" appended. */
  function RemoveFile(args: string): string {
    if Contains(args, ".lua") then args else RemoveName(args) + ".lua"
  }

  /** The path remove deletes. */
  function RemovePath(args: string): string {
    Combine(ScalesDir, RemoveFile(args))
  }

  /** The backward search of remove, from index `i` down to 1: the first
      scale met whose key is `name`. Index 0 is never looked at. */
  function FindFromBack(key: Scale -> string, ss: seq<Scale>, name: string, i: int): (r: Option<nat>)
    requires i < |ss|
    ensures r.Some? ==> 1 <= r.value <= i && key(ss[r.value]) == name
    ensures r.Some? ==> forall j :: r.value < j <= i ==> key(ss[j]) != name
    ensures r.None? ==> forall j :: 1 <= j <= i ==> key(ss[j]) != name
    decreases i
  {
    if i <= 0 then None
    else if key(ss[i]) == name then Some(i)
    else FindFromBack(key, ss, name, i - 1)
  }

  /** The search stops at the last match. */
  lemma FindFromBackIs(key: Scale -> string, ss: seq<Scale>, name: string, i: int, k: nat)
    requires i < |ss| && 1 <= k <= i && key(ss[k]) == name
    requires forall j :: k < j <= i ==> key(ss[j]) != name
    ensures FindFromBack(key, ss, name, i) == Some(k)
    decreases i
  {
    if i != k {
      FindFromBackIs(key, ss, name, i - 1, k);
    }
  }

  /** The remove verb: when the file the argument names exists, drop the
      last scale after the first whose key matches, and delete that file. */
  function Remove(args: string, ss: seq<Scale>, files: Files): Effect {
    if |args| == 0 then Effect(NoNameToRemove, ss, files)
    else Drop(RemoveKey, RemoveName(args), RemoveFile(args), ss, files)
  }

  /** The body of remove for a non-empty argument, for any way `key` of
      naming a scale: the file deleted is the one the argument names, not
      the matching scale's own. */
  function Drop(key: Scale -> string, name: string, file: string, ss: seq<Scale>, files: Files): Effect {
    var path := Combine(ScalesDir, file);
    if path !in files then Effect(RemoveMissing(file), ss, files)
    else
      match FindFromBack(key, ss, name, |ss| - 1)
      case None => Effect(NotAScale(path), ss, files)
      case Some(k) =>
        var left := ss[..k] + ss[k + 1..];
        Effect(Deleted(path, |left|), left, files - {path})
  }

  /** Remove drops at most one scale, never the first, and deletes a file
      exactly when it drops a scale. */
  lemma DropKeepsFirst(key: Scale -> string, name: string, file: string, ss: seq<Scale>, files: Files)
    ensures var r := Drop(key, name, file, ss, files);
            && (|r.scales| == |ss| || |r.scales| == |ss| - 1)
            && (|ss| > 0 ==> |r.scales| > 0 && r.scales[0] == ss[0])
            && (r.scales == ss <==> r.files == files)
            && (r.files == files || r.files == files - {Combine(ScalesDir, file)})
  {
    var path := Combine(ScalesDir, file);
    if path in files {
      var found := FindFromBack(key, ss, name, |ss| - 1);
      if found.Some? {
        var k := found.value;
        var left := ss[..k] + ss[k + 1..];
        assert |left| == |ss| - 1;
        assert left[0] == ss[0];
        assert path !in files - {path};
      }
    }
  }

  /** With the named file present, remove drops the last scale after the
      first whose key matches, deletes the file and reports how many are
      left. */
  lemma DropLastMatch(key: Scale -> string, name: string, file: string, ss: seq<Scale>, files: Files, k: nat)
    requires Combine(ScalesDir, file) in files
    requires 1 <= k < |ss| && key(ss[k]) == name
    requires forall j :: k < j < |ss| ==> key(ss[j]) != name
    ensures var path := Combine(ScalesDir, file);
            Drop(key, name, file, ss, files) == Effect(Deleted(path, |ss| - 1), ss[..k] + ss[k + 1..], files - {path})
  {
    FindFromBackIs(key, ss, name, |ss| - 1, k);
  }

  /** When no scale after the first matches, remove changes nothing and
      says whether the file was there. */
  lemma DropWithoutMatch(key: Scale -> string, name: string, file: string, ss: seq<Scale>, files: Files)
    requires forall j :: 1 <= j < |ss| ==> key(ss[j]) != name
    ensures var path := Combine(ScalesDir, file);
            Drop(key, name, file, ss, files)
            == Effect(if path in files then NotAScale(path) else RemoveMissing(file), ss, files)
  {
  }

  // ---------------------------------------------------------------------
  // list

  /** One line per scale, each "+ " and what `show` makes of the scale,
      in list order. */
  function Listing(show: Scale -> string, ss: seq<Scale>): string
    decreases |ss|
  {
    if |ss| == 0 then "" else "\n+ " + show(ss[0]) + Listing(show, ss[1..])
  }

  /** The list verb. */
  function List(ss: seq<Scale>): Reply {
    if |ss| > 0 then Listed(ss) else OnlyDefaults
  }

  // ---------------------------------------------------------------------
  // The verb table

  /** Snek_DoScale: pick the verb by the lower-cased sub-command; anything
      unknown gets a hint to try the list verb. */
  function DoScale(sub: string, args: string, ss: seq<Scale>, files: Files, lua: Lua): (r: Outcome<Effect>)
    ensures sub != "add" ==> r.Ok?
    ensures sub != "add" && sub != "remove" ==> r.value.scales == ss && r.value.files == files
    ensures IsHelp(sub) ==> r.value.reply == Guide
    ensures !IsHelp(sub) && !IsCat(sub) && sub != "add" && sub != "remove" && sub != "list" ==>
              r.value.reply == TryList
  {
    if IsHelp(sub) then Ok(Effect(Guide, ss, files))
    else if IsCat(sub) then Ok(Effect(Cat(args, files), ss, files))
    else if sub == "add" then Add(args, ss, files, lua)
    else if sub == "remove" then Ok(Remove(args, ss, files))
    else if sub == "list" then Ok(Effect(List(ss), ss, files))
    else Ok(Effect(TryList, ss, files))
  }

  // ---------------------------------------------------------------------
  // The reply texts

  /** The line that opens the list reply. */
  function ListHead(n: nat): string {
    "Found " + Counted(n) + ": " + "```diff"
  }

  /** The lines that close the list reply. */
  function ListFoot(ind: string): string {
    "\n```" + "\n You can add and remove scales with `" + ind + "scale add <name> <content>` and `" + ind
    + "scale remove <name>`"
  }

  /** The list reply for a non-empty list. */
  function ListText(ss: seq<Scale>, ind: string): string {
    ListHead(|ss|) + Listing(Name, ss) + ListFoot(ind)
  }

  /** The text of each answer; `ind` is the indicator as C# concatenation
      shows it. */
  function Render(reply: Reply, ind: string): string {
    match reply
    case Guide => HowTo(ind)
    case Dump(text) => "```lua\n" + text + "```"
    case CatMissing(file) => "I couldn't find a scale with the name `" + file + "`!"
    case DoesNotRun(m) =>
      "Whoops, looks like there was an error in that code - I can't add that as a scale until it compiles!\n`" + m + "`"
    case CannotMake(m) => "Hmm, I couldn't make that into a scale...\n" + m
    case Created(name, n) => "A scale named `" + name + "` was created! Snek currently has " + Counted(n) + "!"
    case NoNameToRemove =>
      "Whoops - That's not how you remove scales! Remember to specify a scale name! `" + ind + "scale remove <name>`!"
    case NotAScale(path) => "Hmm, I found something at " + path + ", but it doesn't seem to be a scale so I won't delete it."
    case Deleted(path, n) => "I deleted my scale at `" + path + "`!\nCustom scales left: " + NatToString(n)
    case RemoveMissing(file) => "I couldn't find a scale with the name `" + file + "`"
    case OnlyDefaults => "I only have my default scales! Try adding some with `" + ind + "scale add <name> <content>`!"
    case Listed(ss) => ListText(ss, ind)
    case TryList => "To look at snek's scales, try `" + ind + "scale list`!"
  }

  // ---------------------------------------------------------------------
  // How the verbs fit together

  /** The name add extracts is already trimmed and lower-cased. */
  lemma ExtractedNameNormal(args: string)
    requires Extract(args).Ok?
    ensures var n := Extract(args).value.name;
            Trim(n) == n && LowerStr(n) == n
  {
    var start := IndexOf(args, '`');
    var t := Trim(args[..start]);
    assert Extract(args).value.name == LowerStr(t);
    TrimLower(t);
    TrimIdempotent(args[..start]);
    LowerStrIdempotent(t);
  }

  /** Cat with the name add reported shows the script add stored. */
  lemma AddThenCat(args: string, ss: seq<Scale>, files: Files, lua: Lua)
    requires Extract(args).Ok? && lua.compile(Extract(args).value.source).Compiles?
    ensures var e := Extract(args).value;
            Cat(e.name, Add(args, ss, files, lua).value.files) == Dump(e.source)
  {
    var e := Extract(args).value;
    AddAppends(args, ss, files, lua);
    ExtractedNameNormal(args);
    assert e.name + "" == e.name;
    assert Combine(ScalesDir, CatFile(e.name)) == AddPath(e.name);
  }

  /** Adding the same script twice lists two identical scales for one file. */
  lemma AddTwiceDuplicates(args: string, ss: seq<Scale>, files: Files, lua: Lua)
    requires Extract(args).Ok? && lua.compile(Extract(args).value.source).Compiles?
    ensures var once := Add(args, ss, files, lua).value;
            var twice := Add(args, once.scales, once.files, lua).value;
            && twice.files == once.files
            && |twice.scales| == |ss| + 2
            && twice.scales[|ss|] == twice.scales[|ss| + 1]
  {
    AddAppends(args, ss, files, lua);
    var once := Add(args, ss, files, lua).value;
    AddAppends(args, once.scales, once.files, lua);
    var e := Extract(args).value;
    var p := AddPath(e.name);
    assert once.files[p := e.source] == once.files;
    assert once.scales[|ss|] == NewScale(p, once.files, lua).value;
  }

  /** A plain file name goes straight under the scales directory. */
  lemma CombinePlain(n: string)
    requires |n| > 0 && '/' !in n
    ensures Combine(ScalesDir, n + ".lua") == ScalesDir + n + ".lua"
  {
    var f := n + ".lua";
    assert f[0] == n[0] && n[0] in n;
    assert ScalesDir[|ScalesDir| - 1] == '/';
  }

  /** The path add writes for a plain name: the name and ".lua" under the
      scales directory. */
  lemma PlainAddPath(n: string)
    requires |n| > 0 && '/' !in n && !Contains(n, ".lua") && Trim(n) == n
    ensures AddPath(n) == ScalesDir + n + ".lua"
  {
    assert Trim(n) + (if Contains(n, ".lua") then "" else ".lua") == n + ".lua";
    CombinePlain(n);
  }

  /** A scale stored by add under a plain, normalised name is found by
      remove under that name. */
  lemma AddedScaleKey(n: string, s: Scale)
    requires |n| > 0 && '/' !in n && Trim(n) == n && LowerStr(n) == n
    requires s.path == ScalesDir + n + ".lua"
    ensures RemoveKey(s) == n
  {
    NameOfScaleFile(ScalesDir, n, s);
  }

  /** Remove under a plain, normalised name looks for that name and
      deletes the name with ".lua" appended. */
  lemma RemovePlain(n: string, ss: seq<Scale>, files: Files)
    requires |n| > 0 && !Contains(n, ".lua") && Trim(n) == n && LowerStr(n) == n
    ensures Remove(n, ss, files) == Drop(RemoveKey, n, n + ".lua", ss, files)
  {
    assert RemoveName(n) == n;
  }

  /** Remove finds a scale appended behind at least one other when its
      key is the name looked for. */
  lemma DropAppended(key: Scale -> string, name: string, file: string, ss: seq<Scale>, s: Scale, files: Files)
    requires |ss| >= 1 && key(s) == name && Combine(ScalesDir, file) in files
    ensures var path := Combine(ScalesDir, file);
            Drop(key, name, file, ss + [s], files) == Effect(Deleted(path, |ss|), ss, files - {path})
  {
    DropLastMatch(key, name, file, ss + [s], files, |ss|);
    assert (ss + [s])[..|ss|] + (ss + [s])[|ss| + 1..] == ss;
  }

  /** The scale add appends is found by remove under the name it was
      added with, when that name is plain. */
  lemma AddedKey(args: string, ss: seq<Scale>, files: Files, lua: Lua)
    requires Extract(args).Ok? && lua.compile(Extract(args).value.source).Compiles?
    requires var n := Extract(args).value.name; |n| > 0 && '/' !in n && !Contains(n, ".lua")
    ensures var r := Add(args, ss, files, lua);
            r.Ok? && |r.value.scales| == |ss| + 1 && RemoveKey(r.value.scales[|ss|]) == Extract(args).value.name
  {
    var n := Extract(args).value.name;
    AddAppends(args, ss, files, lua);
    ExtractedNameNormal(args);
    PlainAddPath(n);
    AddedScaleKey(n, Add(args, ss, files, lua).value.scales[|ss|]);
  }

  /** Removing, under its name, a scale just added behind at least one
      other undoes the add: the scales are back as they were, and the file
      is gone. */
  lemma AddThenRemove(args: string, ss: seq<Scale>, files: Files, lua: Lua)
    requires Extract(args).Ok? && lua.compile(Extract(args).value.source).Compiles?
    requires var n := Extract(args).value.name; |n| > 0 && '/' !in n && !Contains(n, ".lua")
    requires |ss| >= 1
    ensures var e := Extract(args).value;
            var added := Add(args, ss, files, lua).value;
            var removed := Remove(e.name, added.scales, added.files);
            && removed.scales == ss
            && removed.files == files - {AddPath(e.name)}
  {
    var e := Extract(args).value;
    AddAppends(args, ss, files, lua);
    ExtractedNameNormal(args);
    PlainAddPath(e.name);
    var added := Add(args, ss, files, lua).value;
    var s := added.scales[|ss|];
    assert added.scales == ss + [s];
    AddedKey(args, ss, files, lua);
    RemoveAppended(e.name, ss, s, files, e.source);
  }

  /** Removing a plain name drops the scale appended last under that name,
      together with the file written for it. */
  lemma RemoveAppended(n: string, ss: seq<Scale>, s: Scale, files: Files, source: string)
    requires |n| > 0 && '/' !in n && !Contains(n, ".lua") && Trim(n) == n && LowerStr(n) == n
    requires |ss| >= 1 && RemoveKey(s) == n
    ensures var p := ScalesDir + n + ".lua";
            var removed := Remove(n, ss + [s], files[p := source]);
            removed.scales == ss && removed.files == files - {p}
  {
    var p := ScalesDir + n + ".lua";
    var written := files[p := source];
    RemoveLastPlain(n, ss, s, written);
    MapWriteRemove(files, p, source);
  }

  lemma MapWriteRemove(files: Files, p: string, source: string)
    ensures files[p := source] - {p} == files - {p}
  {
  }

  /** The Remove half of RemoveAppended. */
  lemma RemoveLastPlain(n: string, ss: seq<Scale>, s: Scale, files: Files)
    requires |n| > 0 && '/' !in n && !Contains(n, ".lua") && Trim(n) == n && LowerStr(n) == n
    requires |ss| >= 1 && RemoveKey(s) == n && ScalesDir + n + ".lua" in files
    ensures var path := ScalesDir + n + ".lua";
            Remove(n, ss + [s], files) == Effect(Deleted(path, |ss|), ss, files - {path})
  {
    CombinePlain(n);
    RemovePlain(n, ss + [s], files);
    DropAppended(RemoveKey, n, n + ".lua", ss, s, files);
  }

  /** A scale added to an empty list sits at index 0, which remove never
      looks at: removing it keeps both the scale and its file. */
  lemma AddToEmptyStays(args: string, files: Files, lua: Lua)
    requires Extract(args).Ok? && lua.compile(Extract(args).value.source).Compiles?
    requires |Extract(args).value.name| > 0
    ensures var e := Extract(args).value;
            var added := Add(args, [], files, lua).value;
            var removed := Remove(e.name, added.scales, added.files);
            && |added.scales| == 1
            && removed.scales == added.scales
            && removed.files == added.files
  {
    AddAppends(args, [], files, lua);
  }

  /** Remove never drops the first scale, and drops at most one. */
  lemma RemoveKeepsFirst(args: string, ss: seq<Scale>, files: Files)
    requires |ss| > 0
    ensures var r := Remove(args, ss, files);
            && |r.scales| >= |ss| - 1 && |r.scales| > 0 && r.scales[0] == ss[0]
            && (r.scales == ss <==> r.files == files)
  {
    if |args| > 0 {
      DropKeepsFirst(RemoveKey, RemoveName(args), RemoveFile(args), ss, files);
    }
  }

  /** No verb drops the first scale. */
  lemma DoScaleKeepsFirst(sub: string, args: string, ss: seq<Scale>, files: Files, lua: Lua)
    requires |ss| >= 1
    ensures var r := DoScale(sub, args, ss, files, lua);
            r.Ok? ==> |r.value.scales| >= 1 && r.value.scales[0] == ss[0]
  {
    if sub == "add" {
      assert DoScale(sub, args, ss, files, lua) == Add(args, ss, files, lua);
      AddFaults(args, ss, files, lua);
      if Extract(args).Ok? {
        if lua.compile(Extract(args).value.source).Compiles? {
          AddAppends(args, ss, files, lua);
        } else {
          AddRefusesFailingScript(args, ss, files, lua);
        }
      }
    } else if sub == "remove" {
      assert DoScale(sub, args, ss, files, lua) == Ok(Remove(args, ss, files));
      RemoveKeepsFirst(args, ss, files);
    }
  }

  /** The listing splits around any one scale's line. */
  lemma {:induction false} ListingSplit(show: Scale -> string, ss: seq<Scale>, j: nat)
    requires j < |ss|
    ensures Listing(show, ss) == Listing(show, ss[..j]) + ("\n+ " + show(ss[j])) + Listing(show, ss[j + 1..])
    decreases j
  {
    if j > 0 {
      ListingSplit(show, ss[1..], j - 1);
      assert ss[1..][..j - 1] == ss[..j][1..];
      assert ss[1..][j - 1] == ss[j];
      assert ss[1..][j..] == ss[j + 1..];
    } else {
      assert ss[..0] == [];
    }
  }

  /** Any text holding a listing holds each of its lines. */
  lemma ListingShows(show: Scale -> string, ss: seq<Scale>, j: nat, head: string, foot: string)
    requires j < |ss|
    ensures Contains(head + Listing(show, ss) + foot, "\n+ " + show(ss[j]))
  {
    var x := "\n+ " + show(ss[j]);
    ListingSplit(show, ss, j);
    var pre := head + Listing(show, ss[..j]);
    var post := Listing(show, ss[j + 1..]) + foot;
    assert head + Listing(show, ss) + foot == pre + x + post;
    ContainsMiddle(pre, x, post);
  }

  /** The list reply holds one "+ name" line for every scale. */
  lemma ListShowsEveryName(ind: string, ss: seq<Scale>, j: nat)
    requires j < |ss|
    ensures Contains(ListText(ss, ind), "\n+ " + Name(ss[j]))
  {
    ListingShows(Name, ss, j, ListHead(|ss|), ListFoot(ind));
  }

  /** The list text opens with the count of scales. */
  lemma ListTextOpens(ss: seq<Scale>, ind: string)
    ensures StartsWith(ListText(ss, ind), "Found " + Counted(|ss|) + ": ")
  {
    var prefix := "Found " + Counted(|ss|) + ": ";
    var rest := "```diff" + Listing(Name, ss) + ListFoot(ind);
    assert ListText(ss, ind) == prefix + rest;
    StartsWithAppend(prefix, rest);
  }

  /** The list sub-command reaches the list verb. */
  lemma DoScaleList(args: string, ss: seq<Scale>, files: Files, lua: Lua)
    ensures DoScale("list", args, ss, files, lua) == Ok(Effect(List(ss), ss, files))
  {
    assert !IsHelp("list") && !IsCat("list");
  }

  /** The list reply is spelt out as the list text. */
  lemma RenderListed(ss: seq<Scale>, ind: string)
    ensures Render(Listed(ss), ind) == ListText(ss, ind)
  {
  }

  /** The list verb changes nothing. With no scales it answers with the
      default-scales message; otherwise its text opens with the count and
      holds one "+ name" line for every scale. */
  lemma ListReplies(args: string, ss: seq<Scale>, files: Files, lua: Lua, ind: string)
    ensures var r := DoScale("list", args, ss, files, lua);
            && r.Ok? && r.value.scales == ss && r.value.files == files
            && (r.value.reply == OnlyDefaults <==> |ss| == 0)
            && (|ss| > 0 ==> StartsWith(Render(r.value.reply, ind), "Found " + Counted(|ss|) + ": "))
            && forall j :: 0 <= j < |ss| ==> Contains(Render(r.value.reply, ind), "\n+ " + Name(ss[j]))
  {
    DoScaleList(args, ss, files, lua);
    if |ss| > 0 {
      RenderListed(ss, ind);
      ListTextOpens(ss, ind);
      forall j | 0 <= j < |ss|
        ensures Contains(ListText(ss, ind), "\n+ " + Name(ss[j]))
      {
        ListShowsEveryName(ind, ss, j);
      }
    }
  }
}
