/** How `scale add` cuts the script out of its arguments: the name is what
    comes before the first backtick, and the body after it loses its
    leading fence (backticks and white space), any number of "lua" tags
    right after that fence, and its trailing fence. */
module SourceExtraction {
  import opened Outcomes
  import opened Text

  /** The characters both offset loops skip: a backtick, or a character
      for which string.IsNullOrWhiteSpace("" + c) holds. */
  predicate Fence(c: char) {
    c == '`' || IsWhiteSpace(c)
  }

  /** The length of the leading run of fence characters. */
  function FenceRun(s: string): (r: nat)
    ensures r <= |s|
    ensures forall j :: 0 <= j < r ==> Fence(s[j])
    ensures r == |s| || !Fence(s[r])
    decreases |s|
  {
    if |s| > 0 && Fence(s[0]) then 1 + FenceRun(s[1..]) else 0
  }

  /** The length of the trailing run of fence characters. */
  function TrailingRun(s: string): (r: nat)
    ensures r <= |s|
    ensures forall j :: |s| - r <= j < |s| ==> Fence(s[j])
    ensures r == |s| || !Fence(s[|s| - r - 1])
    decreases |s|
  {
    if |s| > 0 && Fence(s[|s| - 1]) then 1 + TrailingRun(s[..|s| - 1]) else 0
  }

  /** The text from position `i` on starts with "lua" in any case, read
      character by character. */
  predicate LuaTag(s: string, i: nat) {
    i + 3 <= |s| && Lower(s[i]) == 'l' && Lower(s[i + 1]) == 'u' && Lower(s[i + 2]) == 'a'
  }

  /** LuaTag is `s.Substring(i).ToLowerInvariant().StartsWith("lua")`. */
  lemma LuaTagIsStartsWith(s: string, i: nat)
    requires i <= |s|
    ensures LuaTag(s, i) <==> StartsWith(LowerStr(s[i..]), "lua")
  {
    if i + 3 <= |s| {
      assert LowerStr(s[i..])[..3] == [Lower(s[i]), Lower(s[i + 1]), Lower(s[i + 2])];
    }
  }

  /** How many "lua" tags follow each other from position `i` on. */
  function LuaRun(s: string, i: nat): (r: nat)
    requires i <= |s|
    ensures i + 3 * r <= |s|
    decreases |s| - i
  {
    if LuaTag(s, i) then 1 + LuaRun(s, i + 3) else 0
  }

  /** Where the script starts: past the leading fence and the tags after it. */
  function ForwardOffset(body: string): nat {
    var f := FenceRun(body);
    f + 3 * LuaRun(body, f)
  }

  /** The forward loop of the add command. It walks the characters of the
      body, but the position it tests for a tag is its running offset,
      which runs ahead of the walk once a tag has been skipped. The offset
      never passes the end of the body, so the Substring call it makes
      never throws. */
  method SkipForward(body: string) returns (off: nat)
    ensures off == ForwardOffset(body)
    ensures off <= |body|
  {
    var f := FenceRun(body);
    off := 0;
    var k := 0;
    while k < |body|
      invariant 0 <= k <= |body| && off <= |body|
      invariant k <= f ==> off == k
      invariant k > f ==> off == f + 3 * (k - f)
      invariant k > f ==> LuaRun(body, f) == (k - f) + LuaRun(body, off)
      invariant k > f ==> forall j :: f <= j < off ==> !Fence(body[j])
    {
      if !Fence(body[k]) {
        if LuaTag(body, off) {
          off := off + 3;
          k := k + 1;
          continue;
        }
        break;
      }
      off := off + 1;
      k := k + 1;
    }
  }

  /** The backward loop of the add command: the length of the trailing fence. */
  method SkipBackward(body: string) returns (back: nat)
    ensures back == TrailingRun(body)
  {
    back := 0;
    while back < |body|
      invariant back <= |body|
      invariant forall j :: |body| - back <= j < |body| ==> Fence(body[j])
    {
      if !Fence(body[|body| - 1 - back]) {
        break;
      }
      back := back + 1;
    }
  }

  /** Trimming and lower-casing bring in no backtick. */
  lemma NoBacktickInName(s: string)
    requires '`' !in s
    ensures '`' !in LowerStr(Trim(s))
  {
    TrimWithin(s);
    var t := Trim(s);
    forall i | 0 <= i < |t|
      ensures LowerStr(t)[i] != '`'
    {
      assert t[i] in s;
    }
  }

  /** What is left once the trailing fence is cut off does not end in a
      fence character. */
  lemma SourceEnd(body: string, off: nat)
    requires off + TrailingRun(body) <= |body|
    ensures var src := body[off..|body| - TrailingRun(body)];
            src == [] || !Fence(src[|src| - 1])
  {
  }

  /** The name and the script text of an add command. */
  datatype Extracted = Extracted(name: string, source: string)

  /** The parsing at the start of the add command. Without a backtick the
      name's Substring(0, -1) throws; a body made only of fence
      characters makes the final Substring's length negative. */
  function Extract(args: string): (r: Outcome<Extracted>)
    ensures '`' !in args ==> r == Fault(OutOfRange)
    ensures r.Ok? ==> '`' !in r.value.name
    ensures r.Ok? ==> r.value.source == [] || !Fence(r.value.source[|r.value.source| - 1])
  {
    var start := IndexOf(args, '`');
    if start < 0 then Fault(OutOfRange)
    else
      var name := LowerStr(Trim(args[..start]));
      var body := Trim(args[start..]);
      var off := ForwardOffset(body);
      var back := TrailingRun(body);
      NoBacktickInName(args[..start]);
      if off + back > |body| then Fault(OutOfRange)
      else
        SourceEnd(body, off);
        Ok(Extracted(name, body[off..|body| - back]))
  }

  // ---------------------------------------------------------------------
  // What Extract does with the text of a chat code block.

  lemma FenceRunIs(s: string, k: nat)
    requires k <= |s| && forall j :: 0 <= j < k ==> Fence(s[j])
    requires k == |s| || !Fence(s[k])
    ensures FenceRun(s) == k
  {
  }

  lemma TrailingRunIs(s: string, k: nat)
    requires k <= |s| && forall j :: |s| - k <= j < |s| ==> Fence(s[j])
    requires k == |s| || !Fence(s[|s| - k - 1])
    ensures TrailingRun(s) == k
  {
  }

  /** The characters of the tags skipped are not fence characters. */
  lemma {:induction false} LuaRunNotFence(s: string, i: nat)
    requires i <= |s|
    ensures forall j :: i <= j < i + 3 * LuaRun(s, i) ==> !Fence(s[j])
    decreases |s| - i
  {
    if LuaTag(s, i) {
      LuaRunNotFence(s, i + 3);
    }
  }

  /** A text that starts and ends with a non-white character is its own trim. */
  lemma TrimKeeps(s: string)
    requires |s| > 0 && !IsWhiteSpace(s[0]) && !IsWhiteSpace(s[|s| - 1])
    ensures Trim(s) == s
  {
    assert TrimStart(s) == s;
    assert TrimEnd(s) == s;
  }

  /** The offsets overlap exactly when the body holds nothing but fence
      characters. */
  lemma OffsetsOverlap(body: string)
    requires |body| >= 1
    ensures ForwardOffset(body) + TrailingRun(body) > |body| <==> forall j :: 0 <= j < |body| ==> Fence(body[j])
  {
    var f := FenceRun(body);
    var back := TrailingRun(body);
    if f < |body| {
      var m := LuaRun(body, f);
      LuaRunNotFence(body, f);
      if m == 0 {
        assert back <= |body| - f - 1;
      } else {
        assert !Fence(body[f + 3 * m - 1]);
        assert back <= |body| - (f + 3 * m);
      }
    }
  }

  /** Trimming a text that starts with a backtick leaves it non-empty, and
      all fence characters exactly when it was. */
  lemma TrimFence(tail: string)
    requires |tail| >= 1 && tail[0] == '`'
    ensures |Trim(tail)| >= 1
    ensures (forall j :: 0 <= j < |tail| ==> Fence(tail[j]))
            <==> (forall j :: 0 <= j < |Trim(tail)| ==> Fence(Trim(tail)[j]))
  {
    assert TrimStart(tail) == tail;
    TrimEndShape(tail);
    var body := Trim(tail);
    assert body == tail[..|body|];
    assert |body| >= 1;
    assert forall j :: |body| <= j < |tail| ==> IsWhiteSpace(tail[j]) by {
      assert Blank(tail[|body|..]);
      forall j | |body| <= j < |tail|
        ensures IsWhiteSpace(tail[j])
      {
        assert tail[j] == tail[|body|..][j - |body|];
      }
    }
  }

  /** Extract throws exactly when there is no backtick or the offsets
      overlap. */
  lemma ExtractFaultsWhen(args: string)
    ensures var start := IndexOf(args, '`');
            Extract(args).Fault? <==>
              start < 0 || ForwardOffset(Trim(args[start..])) + TrailingRun(Trim(args[start..])) > |Trim(args[start..])|
  {
  }

  /** The offsets overlap on the trimmed text from the first backtick on
      exactly when nothing but fence characters follows that backtick. */
  lemma TailOverlaps(args: string, start: nat)
    requires start < |args| && args[start] == '`'
    ensures var body := Trim(args[start..]);
            ForwardOffset(body) + TrailingRun(body) > |body|
            <==> forall j :: start <= j < |args| ==> Fence(args[j])
  {
    var tail := args[start..];
    TrimFence(tail);
    OffsetsOverlap(Trim(tail));
    assert (forall j :: start <= j < |args| ==> Fence(args[j]))
           <==> (forall j :: 0 <= j < |tail| ==> Fence(tail[j])) by {
      assert forall j :: start <= j < |args| ==> args[j] == tail[j - start];
    }
  }

  /** Extract throws exactly when there is no backtick, or when nothing but
      backticks and white space follows the first one. */
  lemma ExtractFaults(args: string)
    ensures Extract(args).Fault? <==>
              '`' !in args || forall j :: IndexOf(args, '`') <= j < |args| ==> Fence(args[j])
  {
    ExtractFaultsWhen(args);
    var start := IndexOf(args, '`');
    if start >= 0 {
      TailOverlaps(args, start);
    }
  }

  /** A chat code block tagged "lua". */
  function CodeBlock(code: string): string {
    "```lua\n" + code + "\n```"
  }

  /** The offsets of a chat code block tagged "lua". */
  lemma BlockOffsets(code: string)
    requires |code| > 0 && !Fence(code[|code| - 1])
    ensures var block := CodeBlock(code);
            && Trim(block) == block
            && ForwardOffset(block) == 6
            && TrailingRun(block) == 4
            && block[6..|block| - 4] == "\n" + code
  {
    var block := CodeBlock(code);
    TrimKeeps(block);
    FenceRunIs(block, 3);
    assert LuaTag(block, 3);
    assert !LuaTag(block, 6);
    assert LuaRun(block, 6) == 0;
    assert LuaRun(block, 3) == 1;
    TrailingRunIs(block, 4);
    assert block[6..|block| - 4] == "\n" + code;
  }

  /** The usual way to post a script, `name ```lua` on one line, the
      script, then "```" on a line of its own, gives back the lower-cased
      name and the script, with the line break after the tag kept. */
  lemma ExtractCodeBlock(name: string, code: string)
    requires '`' !in name
    requires |code| > 0 && !Fence(code[|code| - 1])
    ensures Extract(name + CodeBlock(code)) == Ok(Extracted(LowerStr(Trim(name)), "\n" + code))
  {
    var block := CodeBlock(code);
    var args := name + block;
    assert args[..|name|] == name;
    assert args[|name|..] == block;
    IndexOfIs(args, '`', |name|);
    BlockOffsets(code);
  }
}
