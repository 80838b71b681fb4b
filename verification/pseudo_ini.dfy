/** PseudoINI: a flat `key=value` store kept in one text file, read and
    written as a whole snapshot on every access.

    The file is a value of type `Option<string>`: `None` when it does not
    exist. An exception escaping an operation is a `Fault`. */
module PseudoIni {
  import opened Outcomes
  import opened Text

  datatype Pair = Pair(key: string, value: string)

  /** WriteItem's boolean answer together with the file it leaves behind. */
  datatype Write = Write(ok: bool, file: Option<string>)

  /** The characters of the `reserved` list. Each entry is one character
      long, so `key.Contains(s)` is membership of that character; a
      carriage return is not among them. */
  predicate IsReserved(c: char) {
    c == '=' || c == ';' || c == '\n'
  }

  predicate HasReserved(key: string) {
    exists i :: 0 <= i < |key| && IsReserved(key[i])
  }

  /** Keys compare after trimming and lower-casing both sides. */
  predicate KeyEquals(k1: string, k2: string) {
    LowerStr(Trim(k1)) == LowerStr(Trim(k2))
  }

  /** What a parsed snapshot can hold: no key or value spans a line or
      contains '='. */
  predicate WellFormed(ps: seq<Pair>) {
    forall i :: 0 <= i < |ps| ==>
      '=' !in ps[i].key && '\n' !in ps[i].key && '=' !in ps[i].value && '\n' !in ps[i].value
  }

  /** One line of the file: the line is trimmed and cut at '='; the key
      is the first piece and the value the second, so a value holding
      '=' is truncated and a line without '=' throws. */
  function ParseLine(line: string): (r: Outcome<Pair>)
    ensures r.Fault? <==> '=' !in Trim(line)
    ensures r.Ok? ==> '=' !in r.value.key && '=' !in r.value.value
  {
    var parts := Split(Trim(line), '=');
    if |parts| < 2 then Fault(IndexOutOfRange) else Ok(Pair(parts[0], parts[1]))
  }

  /** A parsed key and value are made of characters of their line. */
  lemma ParseLineWithin(line: string)
    requires ParseLine(line).Ok?
    ensures CharsWithin(ParseLine(line).value.key, line)
    ensures CharsWithin(ParseLine(line).value.value, line)
  {
    var t := Trim(line);
    TrimWithin(line);
    SplitWithin(t, '=');
    assert CharsWithin(Split(t, '=')[0], t);
    assert CharsWithin(Split(t, '=')[1], t);
  }

  /** The lines in order; the first malformed line throws. */
  function ParseLines(lines: seq<string>): (r: Outcome<seq<Pair>>)
    ensures r.Fault? <==> exists i :: 0 <= i < |lines| && '=' !in Trim(lines[i])
    ensures r.Ok? ==> |r.value| == |lines|
    ensures r.Ok? ==> forall i :: 0 <= i < |lines| ==> ParseLine(lines[i]) == Ok(r.value[i])
  {
    if |lines| == 0 then Ok([])
    else
      var head := ParseLine(lines[0]);
      var tail := ParseLines(lines[1..]);
      assert forall i :: 1 <= i < |lines| ==> lines[i] == lines[1..][i - 1];
      if head.Fault? then Fault(head.error)
      else if tail.Fault? then Fault(tail.error)
      else Ok([head.value] + tail.value)
  }

  /** Snapshot: no file gives null; otherwise the whole text is trimmed,
      cut at each '\n' and every piece parsed as a line. */
  function Snapshot(file: Option<string>): (r: Outcome<Option<seq<Pair>>>)
    ensures file.None? <==> r == Ok(None)
    ensures file.Some? ==>
              (r.Fault? <==> exists i :: 0 <= i < |Split(Trim(file.value), '\n')|
                                          && '=' !in Trim(Split(Trim(file.value), '\n')[i]))
    ensures r.Ok? && r.value.Some? ==>
              |r.value.value| == |Split(Trim(file.value), '\n')| >= 1 && WellFormed(r.value.value)
  {
    match file
    case None => Ok(None)
    case Some(text) =>
      var lines := Split(Trim(text), '\n');
      match ParseLines(lines)
      case Fault(e) => Fault(e)
      case Ok(ps) =>
        SplitWithin(Trim(text), '\n');
        forall i | 0 <= i < |ps|
          ensures '\n' !in ps[i].key && '\n' !in ps[i].value
        {
          assert ParseLine(lines[i]) == Ok(ps[i]);
          ParseLineWithin(lines[i]);
        }
        Ok(Some(ps))
  }

  function Line(p: Pair): string {
    p.key + "=" + p.value
  }

  /** Compose: appends `key=value\n` for each pair, in list order. */
  function Compose(ps: seq<Pair>): string {
    if |ps| == 0 then "" else Line(ps[0]) + "\n" + Compose(ps[1..])
  }

  /** The position of the first pair whose key equals `key`. */
  function FirstMatch(ps: seq<Pair>, key: string): (r: Option<nat>)
    ensures r.Some? ==> r.value < |ps| && KeyEquals(ps[r.value].key, key)
    ensures forall j :: 0 <= j < |ps| && (r.None? || j < r.value) ==> !KeyEquals(ps[j].key, key)
  {
    if |ps| == 0 then None
    else if KeyEquals(ps[0].key, key) then Some(0)
    else
      assert forall j :: 1 <= j < |ps| ==> ps[j] == ps[1..][j - 1];
      match FirstMatch(ps[1..], key)
      case None => None
      case Some(i) => Some(i + 1)
  }

  /** ReadItem's search: the value of the first key-equal pair. */
  function Lookup(ps: seq<Pair>, key: string): (r: Option<string>)
    ensures r.None? <==> forall i :: 0 <= i < |ps| ==> !KeyEquals(ps[i].key, key)
    ensures r.Some? ==> exists i :: 0 <= i < |ps| && KeyEquals(ps[i].key, key) && ps[i].value == r.value
                                    && forall j :: 0 <= j < i ==> !KeyEquals(ps[j].key, key)
  {
    match FirstMatch(ps, key)
    case None => None
    case Some(i) => Some(ps[i].value)
  }

  /** WriteItem's update of the snapshot: the first key-equal pair is
      replaced in place (under the new spelling of the key), or the pair
      is appended when no key matches. */
  function Upsert(ps: seq<Pair>, key: string, value: string): (r: seq<Pair>)
    ensures forall i :: 0 <= i < |ps| && KeyEquals(ps[i].key, key)
              && (forall j :: 0 <= j < i ==> !KeyEquals(ps[j].key, key))
              ==> r == ps[i := Pair(key, value)]
    ensures (forall j :: 0 <= j < |ps| ==> !KeyEquals(ps[j].key, key)) ==> r == ps + [Pair(key, value)]
  {
    match FirstMatch(ps, key)
    case None => ps + [Pair(key, value)]
    case Some(i) => ps[i := Pair(key, value)]
  }

  /** WriteItem(key, value). A key holding a reserved character is
      refused before the file is touched; a snapshot that throws is caught
      and reported as false. Writing the file itself always succeeds here. */
  function WriteItem(file: Option<string>, key: string, value: string): (r: Write)
    ensures HasReserved(key) ==> r == Write(false, file)
    ensures !r.ok ==> r.file == file
    ensures r.ok <==> !HasReserved(key) && Snapshot(file).Ok?
    ensures file.None? && !HasReserved(key) ==> r == Write(true, Some(key + "=" + value + "\n"))
  {
    if HasReserved(key) then Write(false, file)
    else
      match Snapshot(file)
      case Fault(_) => Write(false, file)
      case Ok(None) =>
        assert [Pair(key, value)][1..] == [];
        assert Compose([Pair(key, value)]) == key + "=" + value + "\n";
        Write(true, Some(Compose([Pair(key, value)])))
      case Ok(Some(ps)) => Write(true, Some(Compose(Upsert(ps, key, value))))
  }

  /** ReadItem(key): the value of the first key-equal pair, or null. A
      missing file makes the snapshot null and the loop over it throws. */
  function ReadItem(file: Option<string>, key: string): (r: Outcome<Option<string>>)
    ensures file.None? ==> r.Fault?
    ensures Snapshot(file).Fault? ==> r.Fault?
    ensures Snapshot(file).Ok? && Snapshot(file).value.Some? ==>
              var ps := Snapshot(file).value.value;
              && r.Ok?
              && (r.value.None? <==> forall i :: 0 <= i < |ps| ==> !KeyEquals(ps[i].key, key))
              && (r.value.Some? ==>
                    exists i :: 0 <= i < |ps| && KeyEquals(ps[i].key, key) && ps[i].value == r.value.value
                                && forall j :: 0 <= j < i ==> !KeyEquals(ps[j].key, key))
  {
    match Snapshot(file)
    case Fault(e) => Fault(e)
    case Ok(None) => Fault(NullReference)
    case Ok(Some(ps)) => Ok(Lookup(ps, key))
  }
}
