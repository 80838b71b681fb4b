/** What the store promises across calls: the text Compose writes parses
    back to the same pairs, and a successful WriteItem is seen by ReadItem. */
module PseudoIniProofs {
  import opened Outcomes
  import opened Text
  import opened PseudoIni

  /** The pairs as they read back from composed text: a key loses its
      leading white space and a value its trailing white space, because
      every line is trimmed before it is cut at '='. */
  function Normal(ps: seq<Pair>): (r: seq<Pair>)
    ensures |r| == |ps|
    ensures forall i :: 0 <= i < |ps| ==> r[i] == Pair(TrimStart(ps[i].key), TrimEnd(ps[i].value))
  {
    seq(|ps|, i requires 0 <= i < |ps| => Pair(TrimStart(ps[i].key), TrimEnd(ps[i].value)))
  }

  lemma NormalCons(ps: seq<Pair>)
    requires |ps| >= 1
    ensures Normal(ps) == [Pair(TrimStart(ps[0].key), TrimEnd(ps[0].value))] + Normal(ps[1..])
  {
    var r := [Pair(TrimStart(ps[0].key), TrimEnd(ps[0].value))] + Normal(ps[1..]);
    assert forall i :: 1 <= i < |ps| ==> ps[1..][i - 1] == ps[i];
    assert forall i :: 0 <= i < |ps| ==> Normal(ps)[i] == r[i];
  }

  /** Compose writes the pairs in list order: composing a concatenation
      concatenates the texts. */
  lemma {:induction false} ComposeAppend(a: seq<Pair>, b: seq<Pair>)
    ensures Compose(a + b) == Compose(a) + Compose(b)
    decreases |a|
  {
    if |a| == 0 {
      assert a + b == b;
    } else {
      assert (a + b)[1..] == a[1..] + b;
      ComposeAppend(a[1..], b);
    }
  }

  /** One pair is written as `key=value\n`. */
  lemma ComposeSingle(p: Pair)
    ensures Compose([p]) == p.key + "=" + p.value + "\n"
  {
    assert [p][1..] == [];
  }

  /** A line `k=v` without further '=' parses to its trimmed halves. */
  lemma ParseLineOf(k: string, v: string)
    requires '=' !in k && '=' !in v
    ensures ParseLine(k + "=" + v) == Ok(Pair(TrimStart(k), TrimEnd(v)))
  {
    TrimStartPast(k, '=', v);
    assert k + "=" + v == k + ['='] + v;
    TrimEndPast(TrimStart(k), '=', v);
    assert Trim(k + "=" + v) == TrimStart(k) + ['='] + TrimEnd(v);
    TrimStartWithin(k);
    TrimEndWithin(v);
    SplitCons(TrimStart(k), '=', TrimEnd(v));
    SplitNoSeparator(TrimEnd(v), '=');
  }

  lemma ParseLinesCons(line: string, lines: seq<string>)
    requires ParseLine(line).Ok? && ParseLines(lines).Ok?
    ensures ParseLines([line] + lines) == Ok([ParseLine(line).value] + ParseLines(lines).value)
  {
    assert ([line] + lines)[1..] == lines;
  }

  lemma ParseLinesOne(line: string)
    requires ParseLine(line).Ok?
    ensures ParseLines([line]) == Ok([ParseLine(line).value])
  {
    assert [line][1..] == [];
    assert ParseLines([line][1..]) == Ok([]);
    assert [ParseLine(line).value] + [] == [ParseLine(line).value];
  }

  /** The last line of a composed text, once the text is trimmed. */
  lemma ParseTailOne(k: string, v: string)
    requires '=' !in k && '\n' !in k && '=' !in v && '\n' !in v
    ensures ParseLines(Split(k + "=" + TrimEnd(v + "\n" + Compose([])), '\n'))
            == Ok([Pair(TrimStart(k), TrimEnd(v))])
  {
    var t := k + "=" + TrimEnd(v);
    assert k + "=" + TrimEnd(v + "\n" + Compose([])) == t by {
      assert v + "\n" + Compose([]) == v + "\n";
      assert (v + "\n")[..|v|] == v;
    }
    assert Split(t, '\n') == [t] by {
      TrimEndWithin(v);
      SplitNoSeparator(t, '\n');
    }
    assert ParseLine(t) == Ok(Pair(TrimStart(k), TrimEnd(v))) by {
      TrimEndWithin(v);
      ParseLineOf(k, TrimEnd(v));
      TrimEndIdempotent(v);
    }
    ParseLinesOne(t);
  }

  /** Trailing white space of a composed text never reaches past the '='
      of its last line, so only that line's value loses it. */
  lemma TailText(k: string, ps: seq<Pair>)
    requires |ps| >= 2
    ensures k + "=" + TrimEnd(ps[0].value + "\n" + Compose(ps[1..]))
            == (k + "=" + ps[0].value) + ['\n']
               + (ps[1].key + "=" + TrimEnd(ps[1].value + "\n" + Compose(ps[2..])))
  {
    var v0, k1, rest := ps[0].value, ps[1].key, ps[1].value + "\n" + Compose(ps[2..]);
    ComposeSecond(ps);
    TrimEndPast(v0 + "\n" + k1, '=', rest);
    Regroup(k, v0, k1, TrimEnd(rest));
  }

  lemma Regroup(k: string, v: string, k1: string, t: string)
    ensures k + "=" + ((v + "\n" + k1) + ['='] + t) == (k + "=" + v) + ['\n'] + (k1 + "=" + t)
  {
  }

  lemma ComposeSecond(ps: seq<Pair>)
    requires |ps| >= 2
    ensures ps[0].value + "\n" + Compose(ps[1..])
            == (ps[0].value + "\n" + ps[1].key) + ['='] + (ps[1].value + "\n" + Compose(ps[2..]))
  {
    assert ps[1..][1..] == ps[2..];
  }

  /** The text that follows the first key once the whole file is trimmed:
      parsing it gives the remaining pairs, each normalised. */
  lemma {:induction false} ParseTail(k: string, ps: seq<Pair>)
    requires '=' !in k && '\n' !in k
    requires |ps| >= 1 && WellFormed(ps)
    ensures ParseLines(Split(k + "=" + TrimEnd(ps[0].value + "\n" + Compose(ps[1..])), '\n'))
            == Ok([Pair(TrimStart(k), TrimEnd(ps[0].value))] + Normal(ps[1..]))
    decreases |ps|
  {
    if |ps| == 1 {
      ParseTailOne(k, ps[0].value);
      assert ps[1..] == [];
    } else {
      var first := k + "=" + ps[0].value;
      var next := ps[1].key + "=" + TrimEnd(ps[1].value + "\n" + Compose(ps[2..]));
      TailText(k, ps);
      SplitCons(first, '\n', next);
      ParseLineOf(k, ps[0].value);
      assert ps[1..][0] == ps[1] && ps[1..][1..] == ps[2..];
      ParseTail(ps[1].key, ps[1..]);
      NormalCons(ps[1..]);
      ParseLinesCons(first, Split(next, '\n'));
    }
  }

  /** Trimming a line `k=v` trims only the outer sides of its halves. */
  lemma TrimAroundEquals(k: string, v: string)
    ensures Trim(k + "=" + v) == TrimStart(k) + "=" + TrimEnd(v)
  {
    assert k + "=" + v == k + ['='] + v;
    TrimStartPast(k, '=', v);
    TrimEndPast(TrimStart(k), '=', v);
  }

  lemma TrimOfCompose(ps: seq<Pair>)
    requires |ps| >= 1
    ensures Trim(Compose(ps)) == TrimStart(ps[0].key) + "=" + TrimEnd(ps[0].value + "\n" + Compose(ps[1..]))
  {
    assert Compose(ps) == ps[0].key + "=" + (ps[0].value + "\n" + Compose(ps[1..]));
    TrimAroundEquals(ps[0].key, ps[0].value + "\n" + Compose(ps[1..]));
  }

  lemma SnapshotOfCompose(ps: seq<Pair>)
    requires |ps| >= 1 && WellFormed(ps)
    ensures Snapshot(Some(Compose(ps))) == Ok(Some(Normal(ps)))
  {
    var k0 := ps[0].key;
    TrimOfCompose(ps);
    TrimStartWithin(k0);
    ParseTail(TrimStart(k0), ps);
    TrimStartIdempotent(k0);
    NormalCons(ps);
    SnapshotOfLines(Compose(ps), Normal(ps));
  }

  lemma SnapshotOfLines(text: string, ps: seq<Pair>)
    requires ParseLines(Split(Trim(text), '\n')) == Ok(ps)
    ensures Snapshot(Some(text)) == Ok(Some(ps))
  {
  }

  // ---------------------------------------------------------------------
  // Key comparison.

  lemma KeyEqualsSymmetric(k1: string, k2: string)
    ensures KeyEquals(k1, k2) <==> KeyEquals(k2, k1)
  {
  }

  /** White space around a key never changes what it matches. */
  lemma KeyEqualsPadded(w1: string, k: string, w2: string, key: string)
    requires Blank(w1) && Blank(w2)
    ensures KeyEquals(w1 + k + w2, key) <==> KeyEquals(k, key)
  {
    TrimPadded(w1, k, w2);
  }

  /** The case of a key's letters never changes what it matches. */
  lemma KeyEqualsLower(k: string, key: string)
    ensures KeyEquals(LowerStr(k), key) <==> KeyEquals(k, key)
  {
    TrimLower(k);
    LowerStrIdempotent(Trim(k));
  }

  /** A key read back from the file has lost its leading white space,
      which KeyEquals ignores anyway. */
  lemma KeyEqualsTrimStart(k: string, key: string)
    ensures KeyEquals(TrimStart(k), key) <==> KeyEquals(k, key)
  {
    TrimStartIdempotent(k);
  }

  /** Normalising the pairs never moves the first match. */
  lemma {:induction false} FirstMatchNormal(ps: seq<Pair>, key: string)
    ensures FirstMatch(Normal(ps), key) == FirstMatch(ps, key)
    decreases |ps|
  {
    if |ps| > 0 {
      NormalCons(ps);
      KeyEqualsTrimStart(ps[0].key, key);
      assert Normal(ps)[1..] == Normal(ps[1..]);
      FirstMatchNormal(ps[1..], key);
    }
  }

  // ---------------------------------------------------------------------
  // Upsert and the write-then-read round trip.

  /** After an upsert the key's first match holds the new value. */
  lemma LookupUpsert(ps: seq<Pair>, key: string, value: string)
    ensures FirstMatch(Upsert(ps, key, value), key).Some?
    ensures var r := Upsert(ps, key, value);
            r[FirstMatch(r, key).value] == Pair(key, value)
  {
    var r := Upsert(ps, key, value);
    match FirstMatch(ps, key)
    case None =>
      assert r == ps + [Pair(key, value)];
      assert KeyEquals(r[|ps|].key, key);
      assert forall j :: 0 <= j < |ps| ==> r[j] == ps[j];
    case Some(i) =>
      assert r == ps[i := Pair(key, value)];
      assert KeyEquals(r[i].key, key);
      assert forall j :: 0 <= j < i ==> r[j] == ps[j];
  }

  /** Upsert keeps a snapshot well formed when the new pair is. */
  lemma UpsertWellFormed(ps: seq<Pair>, key: string, value: string)
    requires WellFormed(ps)
    requires '=' !in key && '\n' !in key && '=' !in value && '\n' !in value
    ensures WellFormed(Upsert(ps, key, value)) && |Upsert(ps, key, value)| >= 1
  {
    var r := Upsert(ps, key, value);
    match FirstMatch(ps, key)
    case None =>
      assert forall j :: 0 <= j < |ps| ==> r[j] == ps[j];
    case Some(i) =>
  }

  /** A reserved-free key has neither '=' nor a line break. */
  lemma NoReservedInKey(key: string)
    requires !HasReserved(key)
    ensures '=' !in key && '\n' !in key
  {
    forall i | 0 <= i < |key|
      ensures key[i] != '=' && key[i] != '\n'
    {
      assert !IsReserved(key[i]);
    }
  }

  /** The pairs a write starts from: none for a missing file, else the
      snapshot's. */
  function Before(file: Option<string>): seq<Pair>
    requires Snapshot(file).Ok?
  {
    if file.None? then [] else Snapshot(file).value.value
  }

  /** After a successful write of a value without '=' or line break, the
      file reads back as the pairs it held before with the first key-equal
      pair replaced in place, or the new pair appended when none matched,
      each pair trimmed as the parser trims it. */
  lemma WriteSnapshot(file: Option<string>, key: string, value: string)
    requires WriteItem(file, key, value).ok
    requires '=' !in value && '\n' !in value
    ensures Snapshot(WriteItem(file, key, value).file) == Ok(Some(Normal(Upsert(Before(file), key, value))))
  {
    NoReservedInKey(key);
    var ps := Before(file);
    var r := Upsert(ps, key, value);
    if file.None? {
      assert WriteItem(file, key, value).file == Some(Compose([Pair(key, value)]));
      assert r == [Pair(key, value)];
    } else {
      assert WriteItem(file, key, value).file == Some(Compose(r));
    }
    UpsertWellFormed(ps, key, value);
    SnapshotOfCompose(r);
  }

  /** Reading a key straight after a successful write gives the written
      value back, minus trailing white space, provided the value holds no
      '=' and no line break (the file format has no way to escape them). */
  lemma WriteThenRead(file: Option<string>, key: string, value: string)
    requires WriteItem(file, key, value).ok
    requires '=' !in value && '\n' !in value
    ensures ReadItem(WriteItem(file, key, value).file, key) == Ok(Some(TrimEnd(value)))
  {
    var r := Upsert(Before(file), key, value);
    WriteSnapshot(file, key, value);
    LookupUpsert(Before(file), key, value);
    FirstMatchNormal(r, key);
  }

  // ---------------------------------------------------------------------
  // Edge cases of the format.

  /** A second '=' cuts the value short: the rest of the line is lost. */
  lemma ParseLineTruncates(k: string, v: string, w: string)
    requires '=' !in k && '=' !in v
    ensures ParseLine(k + "=" + v + "=" + w) == Ok(Pair(TrimStart(k), v))
  {
    var tail := v + "=" + TrimEnd(w);
    assert k + "=" + v + "=" + w == k + "=" + (v + "=" + w);
    TrimAroundEquals(k, v + "=" + w);
    TrimEndPast(v, '=', w);
    assert Trim(k + "=" + v + "=" + w) == TrimStart(k) + ['='] + tail;
    TrimStartWithin(k);
    SplitCons(TrimStart(k), '=', tail);
    SplitCons(v, '=', TrimEnd(w));
  }

  /** An existing but empty file cannot be parsed: its one line has no
      '='. Both operations fail on it. */
  lemma EmptyFileFaults(key: string, value: string)
    ensures Snapshot(Some("")).Fault?
    ensures !WriteItem(Some(""), key, value).ok
    ensures ReadItem(Some(""), key).Fault?
  {
    assert Trim("") == "";
    assert Split("", '\n') == [""];
    assert '=' !in Trim(Split("", '\n')[0]);
  }

  /** A carriage return is not reserved: a key ending in one is written. */
  lemma CarriageReturnKeyAccepted()
    ensures WriteItem(None, "k\r", "v") == Write(true, Some("k\r=v\n"))
  {
    assert forall i :: 0 <= i < |"k\r"| ==> !IsReserved("k\r"[i]);
    assert "k\r" + "=" + "v" + "\n" == "k\r=v\n";
  }
}
