/** The message handler: the lazy update before every message, then the
    parse of the message and the route either to the scale verbs or to the
    scripts whose name is the command word. */
module Dispatch {
  import opened Outcomes
  import opened Text
  import opened Scales
  import opened Registry
  import opened SourceExtraction
  import opened ScaleVerbs

  /** A script's answer to its command's arguments: the text to send
      (`None`: nothing), or the exception the call threw. */
  type Plugin = (Scale, string) -> Outcome<Option<string>>

  /** A command word and its arguments. */
  datatype Command = Command(word: string, args: string)

  /** What the bot sends: a scale verb's answer, spelt out with the
      indicator, or a script's text. */
  datatype Sent = Verb(reply: Reply, ind: string) | Script(text: string)

  /** The text of a message sent. */
  function SentText(s: Sent): string {
    match s
    case Verb(reply, ind) => Render(reply, ind)
    case Script(text) => text
  }

  /** The command word is the first white-space-separated token of the
      message, trimmed and lower-cased, less its first character (taken to
      be the indicator); the arguments are the rest of the message,
      trimmed. An empty message has an empty first token, whose
      Substring(1) throws. */
  function ParseCommand(message: string): (r: Outcome<Command>)
    ensures r.Fault? <==> FirstToken(message) == []
    ensures r.Fault? ==> r == Fault(OutOfRange)
  {
    var token := LowerStr(Trim(FirstToken(message)));
    TokenTrimmed(message);
    if |token| == 0 then Fault(OutOfRange)
    else
      var word := token[1..];
      Ok(Command(word, if |message| - |word| > 0 then Trim(message[|word| + 1..]) else ""))
  }

  /** A first token is its own trim. */
  lemma TokenTrimmed(message: string)
    ensures Trim(FirstToken(message)) == FirstToken(message)
  {
    var t := FirstToken(message);
    if |t| > 0 {
      TrimKeeps(t);
    }
  }

  /** The sub-command of the scale command and its arguments: the first
      token of the arguments, trimmed and lower-cased, and what follows the
      character after it, trimmed. */
  function ParseSub(args: string): Command {
    var sub := LowerStr(Trim(FirstToken(args)));
    TokenTrimmed(args);
    Command(sub, if |args| - |sub| > 0 then Trim(args[|sub| + 1..]) else "")
  }

  /** The loop over the scales for any other command word: every scale
      whose name equals the word, compared case-sensitively, runs, and the
      last one's answer stands, even when it is null; the first exception
      stops the loop. */
  function RunScripts(name: Scale -> string, plugin: Plugin, ss: seq<Scale>, word: string, args: string,
                      res: Option<string>): (r: Outcome<Option<string>>)
    ensures (forall j :: 0 <= j < |ss| ==> name(ss[j]) != word) ==> r == Ok(res)
    decreases |ss|
  {
    if |ss| == 0 then Ok(res)
    else if name(ss[0]) == word then
      match plugin(ss[0], args)
      case Fault(e) => Fault(e)
      case Ok(v) => RunScripts(name, plugin, ss[1..], word, args, v)
    else RunScripts(name, plugin, ss[1..], word, args, res)
  }

  /** Where one message leaves the bot: what was sent, if anything, the
      bot, the files, and the exception that escaped the handler, if any. */
  datatype Handled = Handled(sent: Option<Sent>, bot: Bot, files: Files, fault: Option<string>)

  /** Everything after the update, for a message from someone else, given
      the trimmed message. */
  function Route(b: Bot, files: Files, lua: Lua, plugin: Plugin, message: string): (r: Handled)
    ensures r.bot == b.(scales := r.bot.scales)
    ensures r.fault.Some? ==> r.sent.None?
  {
    if b.indicator.None? then Handled(None, b, files, Some(ArgumentNull))
    else if !StartsWith(message, b.indicator.value) then Handled(None, b, files, None)
    else
      match ParseCommand(message)
      case Fault(e) => Handled(None, b, files, Some(e))
      case Ok(c) =>
        if c.word == "scale" || c.word == "scales" then
          var sc := ParseSub(c.args);
          match DoScale(sc.word, sc.args, b.scales, files, lua)
          case Fault(e) => Handled(None, b, files, Some(e))
          case Ok(eff) => Handled(Some(Verb(eff.reply, b.indicator.value)), b.(scales := eff.scales), eff.files, None)
        else
          match RunScripts(Name, plugin, b.scales, c.word, c.args, None)
          case Fault(e) => Handled(None, b, files, Some(e))
          case Ok(res) => Handled(if res.Some? then Some(Script(res.value)) else None, b, files, None)
  }

  /** Client_MessageReceived: update the bot from the world, ignore the
      bot's own messages, then route the trimmed text. An exception from
      the update escapes before anything else. */
  function Receive(b: Bot, w: World, lua: Lua, plugin: Plugin, content: string, fromSelf: bool): (r: Handled)
    ensures r.bot.configLastWrite == b.configLastWrite
    ensures r.fault.Some? || fromSelf ==> r.sent.None?
    ensures LazyPreUpdate(b, w, lua).fault.Some? ==> r.fault == LazyPreUpdate(b, w, lua).fault
    ensures var u := LazyPreUpdate(b, w, lua);
            u.fault.Some? || fromSelf ==> r == Handled(None, u.state, w.files, u.fault)
    ensures var u := LazyPreUpdate(b, w, lua);
            u.fault.None? && !fromSelf ==> r == Route(u.state, w.files, lua, plugin, Trim(content))
  {
    var u := LazyPreUpdate(b, w, lua);
    if u.fault.Some? then Handled(None, u.state, w.files, u.fault)
    else if fromSelf then Handled(None, u.state, w.files, None)
    else Route(u.state, w.files, lua, plugin, Trim(content))
  }

  // ---------------------------------------------------------------------
  // Properties of the parse

  /** A message typed as one character, a word and the rest parses to the
      lower-cased word and the trimmed rest: only the first character is
      dropped, so an indicator of several characters leaves the others in
      the word. */
  lemma ParseComposed(c: char, word: string, rest: string)
    requires !IsWhiteSpace(c) && forall i :: 0 <= i < |word| ==> !IsWhiteSpace(word[i])
    requires rest == [] || IsWhiteSpace(rest[0])
    ensures ParseCommand([c] + word + rest) == Ok(Command(LowerStr(word), Trim(rest)))
  {
    var m := [c] + word + rest;
    FirstTokenIs(m, |word| + 1);
    assert m[..|word| + 1] == [c] + word;
    TokenTrimmed(m);
    assert LowerStr([c] + word)[1..] == LowerStr(word);
    assert m[|word| + 1..] == rest;
  }

  /** The first token ends at the first white space. */
  lemma {:induction false} FirstTokenIs(s: string, k: nat)
    requires k <= |s| && forall i :: 0 <= i < k ==> !IsWhiteSpace(s[i])
    requires k == |s| || IsWhiteSpace(s[k])
    ensures FirstToken(s) == s[..k]
    decreases k
  {
    if k > 0 {
      FirstTokenIs(s[1..], k - 1);
      assert s[..k] == [s[0]] + s[1..][..k - 1];
    }
  }

  /** A sub-command typed as a word and the rest parses to the lower-cased
      word and the trimmed rest. */
  lemma ParseSubComposed(word: string, rest: string)
    requires forall i :: 0 <= i < |word| ==> !IsWhiteSpace(word[i])
    requires rest == [] || IsWhiteSpace(rest[0])
    ensures ParseSub(word + rest) == Command(LowerStr(word), Trim(rest))
  {
    var a := word + rest;
    FirstTokenIs(a, |word|);
    assert a[..|word|] == word;
    TokenTrimmed(a);
    if |rest| > 0 {
      assert a[|word| + 1..] == rest[1..];
      TrimSkipsWhiteHead(rest);
    }
  }

  /** The command word has no upper-case letter, so a scale whose name has
      one never runs. */
  lemma MixedCaseNeverMatches(message: string, s: Scale)
    requires ParseCommand(message).Ok?
    requires LowerStr(Name(s)) != Name(s)
    ensures ParseCommand(message).value.word != Name(s)
  {
    var token := LowerStr(Trim(FirstToken(message)));
    var word := ParseCommand(message).value.word;
    assert word == token[1..];
    LowerStrIdempotent(Trim(FirstToken(message)));
    assert LowerStr(word) == word;
  }

  // ---------------------------------------------------------------------
  // Properties of the route

  /** With every matching script answering, the last match's answer is
      the result. */
  lemma {:induction false} LastMatchWins(name: Scale -> string, plugin: Plugin, ss: seq<Scale>, word: string,
                                          args: string, res: Option<string>, k: nat)
    requires k < |ss| && name(ss[k]) == word
    requires forall j :: 0 <= j < |ss| && name(ss[j]) == word ==> plugin(ss[j], args).Ok?
    requires forall j :: k < j < |ss| ==> name(ss[j]) != word
    ensures RunScripts(name, plugin, ss, word, args, res) == Ok(plugin(ss[k], args).value)
    decreases |ss|
  {
    if name(ss[0]) == word {
      if k == 0 {
        assert forall j :: 0 <= j < |ss[1..]| ==> name(ss[1..][j]) != word by {
          forall j | 0 <= j < |ss[1..]|
            ensures name(ss[1..][j]) != word
          {
            assert ss[1..][j] == ss[j + 1];
          }
        }
      } else {
        LastMatchWins(name, plugin, ss[1..], word, args, plugin(ss[0], args).value, k - 1);
      }
    } else {
      LastMatchWins(name, plugin, ss[1..], word, args, res, k - 1);
    }
  }

  /** The first matching script that throws stops the loop with its
      exception. */
  lemma {:induction false} FirstFaultStops(name: Scale -> string, plugin: Plugin, ss: seq<Scale>, word: string,
                                            args: string, res: Option<string>, k: nat)
    requires k < |ss| && name(ss[k]) == word && plugin(ss[k], args).Fault?
    requires forall j :: 0 <= j < k && name(ss[j]) == word ==> plugin(ss[j], args).Ok?
    ensures RunScripts(name, plugin, ss, word, args, res) == Fault(plugin(ss[k], args).error)
    decreases |ss|
  {
    if k > 0 {
      if name(ss[0]) == word {
        FirstFaultStops(name, plugin, ss[1..], word, args, plugin(ss[0], args).value, k - 1);
      } else {
        FirstFaultStops(name, plugin, ss[1..], word, args, res, k - 1);
      }
    }
  }

  /** A message that does not start with the indicator gets no reply and
      changes nothing. */
  lemma NotIndicatedIgnored(b: Bot, files: Files, lua: Lua, plugin: Plugin, message: string)
    requires b.indicator.Some? && !StartsWith(message, b.indicator.value)
    ensures Route(b, files, lua, plugin, message) == Handled(None, b, files, None)
  {
  }

  /** The guard against an empty message asks for a message that is both
      null and empty, so it never fires: with an empty indicator, a blank
      message from someone else reaches the parse, whose Substring(1)
      throws. */
  lemma BlankMessageFaults(b: Bot, w: World, lua: Lua, plugin: Plugin, content: string)
    requires LazyPreUpdate(b, w, lua).fault.None?
    requires LazyPreUpdate(b, w, lua).state.indicator == Some("")
    requires Blank(content)
    ensures Receive(b, w, lua, plugin, content, false).fault == Some(OutOfRange)
    ensures Receive(b, w, lua, plugin, content, false).sent.None?
  {
    TrimStartBlank(content);
    assert Trim(content) == [];
    assert FirstToken([]) == [];
  }

  /** For any command but `scale` and `scales`, what is sent is the answer
      the scripts' loop settles on: the last matching scale's text, or
      nothing when that answer is null; an exception from a script escapes
      and nothing is sent. */
  lemma RouteSendsLastAnswer(b: Bot, files: Files, lua: Lua, plugin: Plugin, message: string)
    requires b.indicator.Some? && StartsWith(message, b.indicator.value)
    requires ParseCommand(message).Ok?
    requires ParseCommand(message).value.word != "scale" && ParseCommand(message).value.word != "scales"
    ensures var c := ParseCommand(message).value;
            var res := RunScripts(Name, plugin, b.scales, c.word, c.args, None);
            var r := Route(b, files, lua, plugin, message);
            && (res.Ok? && res.value.Some? ==> r == Handled(Some(Script(res.value.value)), b, files, None))
            && (res.Ok? && res.value.None? ==> r == Handled(None, b, files, None))
            && (res.Fault? ==> r == Handled(None, b, files, Some(res.error)))
  {
  }

  /** When every scale named by the command answers, the last of them
      decides: its text is sent, or nothing when it answers null. */
  lemma RouteSendsLastMatch(b: Bot, files: Files, lua: Lua, plugin: Plugin, message: string, k: nat)
    requires b.indicator.Some? && StartsWith(message, b.indicator.value)
    requires ParseCommand(message).Ok?
    requires ParseCommand(message).value.word != "scale" && ParseCommand(message).value.word != "scales"
    requires var c := ParseCommand(message).value;
             && k < |b.scales| && Name(b.scales[k]) == c.word
             && (forall j :: 0 <= j < |b.scales| && Name(b.scales[j]) == c.word ==> plugin(b.scales[j], c.args).Ok?)
             && (forall j :: k < j < |b.scales| ==> Name(b.scales[j]) != c.word)
    ensures var c := ParseCommand(message).value;
            var answer := plugin(b.scales[k], c.args).value;
            Route(b, files, lua, plugin, message)
            == Handled(if answer.Some? then Some(Script(answer.value)) else None, b, files, None)
  {
    var c := ParseCommand(message).value;
    LastMatchWins(Name, plugin, b.scales, c.word, c.args, None, k);
    RouteSendsLastAnswer(b, files, lua, plugin, message);
  }

  /** The `scale` and `scales` commands send the verb's reply, spelt out
      with the indicator, and leave the bot with the verb's scales and the
      files the verb leaves; an exception from the verb escapes and changes
      nothing. */
  lemma RouteSendsVerbReply(b: Bot, files: Files, lua: Lua, plugin: Plugin, message: string)
    requires b.indicator.Some? && StartsWith(message, b.indicator.value)
    requires ParseCommand(message).Ok?
    requires ParseCommand(message).value.word == "scale" || ParseCommand(message).value.word == "scales"
    ensures var sc := ParseSub(ParseCommand(message).value.args);
            var d := DoScale(sc.word, sc.args, b.scales, files, lua);
            var r := Route(b, files, lua, plugin, message);
            && (d.Ok? ==> r == Handled(Some(Verb(d.value.reply, b.indicator.value)), b.(scales := d.value.scales),
                                       d.value.files, None))
            && (d.Fault? ==> r == Handled(None, b, files, Some(d.error)))
  {
  }

  /** The scale command never consults a script. */
  lemma ScaleCommandIgnoresScripts(b: Bot, files: Files, lua: Lua, p1: Plugin, p2: Plugin, message: string)
    requires ParseCommand(message).Ok?
    requires ParseCommand(message).value.word == "scale" || ParseCommand(message).value.word == "scales"
    ensures Route(b, files, lua, p1, message) == Route(b, files, lua, p2, message)
  {
    if b.indicator.Some? && StartsWith(message, b.indicator.value) {
      var c := ParseCommand(message).value;
      var sc := ParseSub(c.args);
      var d := DoScale(sc.word, sc.args, b.scales, files, lua);
      var r := if d.Fault? then Handled(None, b, files, Some(d.error))
               else Handled(Some(Verb(d.value.reply, b.indicator.value)), b.(scales := d.value.scales), d.value.files, None);
      assert Route(b, files, lua, p1, message) == r;
      assert Route(b, files, lua, p2, message) == r;
    }
  }

  /** Any other command word leaves the scales and the files alone and
      sends at most a script's text. */
  lemma ScriptsChangeNothing(b: Bot, files: Files, lua: Lua, plugin: Plugin, message: string)
    requires ParseCommand(message).Ok?
    requires ParseCommand(message).value.word != "scale" && ParseCommand(message).value.word != "scales"
    ensures var r := Route(b, files, lua, plugin, message);
            && r.bot == b && r.files == files
            && (r.sent.None? || r.sent.value.Script?)
  {
    if b.indicator.Some? && StartsWith(message, b.indicator.value) {
      var c := ParseCommand(message).value;
      var res := RunScripts(Name, plugin, b.scales, c.word, c.args, None);
      assert Route(b, files, lua, plugin, message)
             == if res.Fault? then Handled(None, b, files, Some(res.error))
                else Handled(if res.value.Some? then Some(Script(res.value.value)) else None, b, files, None);
    }
  }

  /** The first scale survives the route. */
  lemma RouteKeepsFirst(b: Bot, files: Files, lua: Lua, plugin: Plugin, message: string)
    requires |b.scales| >= 1
    ensures var r := Route(b, files, lua, plugin, message);
            |r.bot.scales| >= 1 && r.bot.scales[0] == b.scales[0]
  {
    if b.indicator.Some? && StartsWith(message, b.indicator.value) && ParseCommand(message).Ok? {
      var c := ParseCommand(message).value;
      if c.word == "scale" || c.word == "scales" {
        var sc := ParseSub(c.args);
        DoScaleKeepsFirst(sc.word, sc.args, b.scales, files, lua);
      }
    }
  }

  /** The first scale survives every message. */
  lemma FirstScaleStays(b: Bot, w: World, lua: Lua, plugin: Plugin, content: string, fromSelf: bool)
    requires |b.scales| >= 1
    ensures var r := Receive(b, w, lua, plugin, content, fromSelf);
            |r.bot.scales| >= 1 && r.bot.scales[0] == b.scales[0]
  {
    var u := LazyPreUpdate(b, w, lua);
    if u.fault.None? && !fromSelf {
      RouteKeepsFirst(u.state, w.files, lua, plugin, Trim(content));
    }
  }
}
