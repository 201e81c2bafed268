/**
 * `parse_event_info`: turns the `Label: value` block that the language model
 * returns into a dictionary from label to value.
 */
module EventInfo {
  import opened Wrappers
  import opened Text

  /** The placeholder the upstream prompt asks the model to write for an unknown field. */
  const NotSpecified: string := "Not specified"

  /** A value the parser stores: neither empty nor the placeholder (exact, case-sensitive). */
  predicate Kept(value: string) {
    value != [] && value != NotSpecified
  }

  /** The pair one line contributes, if any: the line is split at its first
      colon, both sides are stripped, and a value that is not `Kept` is dropped. */
  function Entry(line: string): (r: Option<(string, string)>)
    ensures r.Some? ==> ':' in line && Stripped(r.value.0) && Stripped(r.value.1) && Kept(r.value.1)
  {
    match SplitFirst(line, ':')
    case None => None
    case Some((name, rest)) =>
      var key, value := Strip(name), Strip(rest);
      if Kept(value) then Some((key, value)) else None
  }

  /** The pair each line contributes, in order. */
  function Entries(lines: seq<string>): (es: seq<Option<(string, string)>>)
    ensures |es| == |lines| && forall i :: 0 <= i < |lines| ==> es[i] == Entry(lines[i])
  {
    seq(|lines|, i requires 0 <= i < |lines| => Entry(lines[i]))
  }

  /** Entry `e` carries the label `k`. */
  predicate HasKey(e: Option<(string, string)>, k: string) {
    e.Some? && e.value.0 == k
  }

  /** No entry after position `i` carries the label `k`. */
  ghost predicate NoLaterKey(es: seq<Option<(string, string)>>, k: string, i: int) {
    forall j :: 0 <= j < |es| && i < j ==> !HasKey(es[j], k)
  }

  /** The dictionary after storing the entries `es` in order, as the loop does. */
  function Fold(es: seq<Option<(string, string)>>): (m: map<string, string>)
    ensures (forall i :: 0 <= i < |es| && es[i].Some? ==> Kept(es[i].value.1))
            ==> forall k :: k in m ==> Kept(m[k])
  {
    if es == [] then map[]
    else
      var m := Fold(es[..|es| - 1]);
      match es[|es| - 1]
      case None => m
      case Some((k, v)) => m[k := v]
  }

  /** The dictionary the parser builds from `lines`: no stored value is empty
      or the placeholder. */
  function Collect(lines: seq<string>): (m: map<string, string>)
    ensures forall k :: k in m ==> Kept(m[k])
  {
    Fold(Entries(lines))
  }

  /** The parser itself: one pass over the lines of `text`, filling `data` in place. */
  method ParseEventInfo(text: string) returns (data: map<string, string>)
    ensures data == Collect(Split(text, '\n'))
  {
    var lines := Split(text, '\n');
    ghost var es := Entries(lines);
    data := map[];
    for i := 0 to |lines|
      invariant data == Fold(es[..i])
    {
      FoldStep(es, i);
      var line := lines[i];
      var parts := SplitFirst(line, ':');
      if parts.Some? {
        var key := Strip(parts.value.0);
        var value := Strip(parts.value.1);
        if value != [] && value != NotSpecified {
          assert es[i] == Some((key, value));
          data := data[key := value];
        } else {
          assert es[i] == None;
        }
      } else {
        assert es[i] == None;
      }
    }
    assert es[..|lines|] == es;
  }

  /** Storing one more entry. */
  lemma {:induction false} FoldStep(es: seq<Option<(string, string)>>, i: nat)
    requires i < |es|
    ensures es[i].None? ==> Fold(es[..i + 1]) == Fold(es[..i])
    ensures es[i].Some? ==> Fold(es[..i + 1]) == Fold(es[..i])[es[i].value.0 := es[i].value.1]
  {
    assert es[..i + 1][..i] == es[..i] && es[..i + 1][i] == es[i];
  }

  /** Every stored label comes from some entry, with the value of the LAST
      entry that carries that label. */
  lemma {:induction false} FoldProvenance(es: seq<Option<(string, string)>>, k: string)
    requires k in Fold(es)
    ensures exists i :: 0 <= i < |es| && es[i] == Some((k, Fold(es)[k])) && NoLaterKey(es, k, i)
  {
    var n := |es| - 1;
    var init := es[..n];
    if HasKey(es[n], k) {
      assert es[n] == Some((k, Fold(es)[k]));
    } else {
      assert k in Fold(init) && Fold(es)[k] == Fold(init)[k];
      FoldProvenance(init, k);
      var i :| 0 <= i < |init| && init[i] == Some((k, Fold(init)[k])) && NoLaterKey(init, k, i);
      assert es[i] == init[i];
      assert forall j :: 0 <= j < n ==> es[j] == init[j];
    }
  }

  /** An entry whose label no later entry repeats determines that label's value. */
  lemma {:induction false} FoldLastWins(es: seq<Option<(string, string)>>, i: int, k: string, v: string)
    requires 0 <= i < |es| && es[i] == Some((k, v))
    requires NoLaterKey(es, k, i)
    ensures k in Fold(es) && Fold(es)[k] == v
  {
    var n := |es| - 1;
    if i < n {
      var init := es[..n];
      assert init[i] == es[i];
      assert !HasKey(es[n], k);
      assert forall j :: 0 <= j < n ==> init[j] == es[j];
      FoldLastWins(init, i, k, v);
    }
  }

  /** If some entry carries `k`, some entry carries it and no later one does. */
  lemma {:induction false} FoldLastKey(es: seq<Option<(string, string)>>, i: int, k: string)
    requires 0 <= i < |es| && HasKey(es[i], k)
    ensures k in Fold(es)
    decreases |es| - i
  {
    if NoLaterKey(es, k, i) {
      FoldLastWins(es, i, k, es[i].value.1);
    } else {
      var j :| 0 <= j < |es| && i < j && HasKey(es[j], k);
      FoldLastKey(es, j, k);
    }
  }

  /** Every stored label is the stripped text before the first colon of some
      line, its value the stripped text after that colon on the last such line. */
  lemma {:induction false} CollectProvenance(lines: seq<string>, k: string)
    requires k in Collect(lines)
    ensures exists i :: 0 <= i < |lines| && Entry(lines[i]) == Some((k, Collect(lines)[k]))
                        && NoLaterKey(Entries(lines), k, i)
  {
    FoldProvenance(Entries(lines), k);
  }

  /** The last line that carries a label decides its value. */
  lemma {:induction false} CollectLastWins(lines: seq<string>, i: int, k: string, v: string)
    requires 0 <= i < |lines| && Entry(lines[i]) == Some((k, v))
    requires NoLaterKey(Entries(lines), k, i)
    ensures k in Collect(lines) && Collect(lines)[k] == v
  {
    FoldLastWins(Entries(lines), i, k, v);
  }

  /** The stored labels are exactly the labels of the lines that carry a kept value. */
  lemma {:induction false} CollectDomain(lines: seq<string>, k: string)
    ensures k in Collect(lines) <==> exists i :: 0 <= i < |lines| && HasKey(Entry(lines[i]), k)
  {
    var es := Entries(lines);
    if k in Collect(lines) {
      FoldProvenance(es, k);
    }
    if exists i :: 0 <= i < |lines| && HasKey(Entry(lines[i]), k) {
      var i :| 0 <= i < |lines| && HasKey(Entry(lines[i]), k);
      FoldLastKey(es, i, k);
    }
  }

  /** A text without line breaks is a single line. */
  lemma {:induction false} SingleLine(line: string)
    requires '\n' !in line
    ensures Entry(line).None? ==> Collect(Split(line, '\n')) == map[]
    ensures Entry(line).Some? ==>
              Collect(Split(line, '\n')) == map[Entry(line).value.0 := Entry(line).value.1]
  {
    SplitJoin([line], '\n');
    assert Split(line, '\n') == [line];
    var es := Entries([line]);
    assert es == [Entry(line)];
    assert es[..0] == [];
    assert Fold(es[..0]) == map[];
  }

  /** Only the first colon splits a line: the value keeps the colons of a time. */
  lemma {:induction false} ColonInValue()
    ensures Collect(Split("Event Start Time: 7:00 PM", '\n')) == map["Event Start Time" := "7:00 PM"]
  {
    var name, value := "Event Start Time", "7:00 PM";
    var line := name + ": " + value;
    assert line == "Event Start Time: 7:00 PM";
    RenderLineEntry((name, value));
    SingleLine(line);
  }

  /** Empty input gives an empty dictionary. */
  lemma {:induction false} EmptyInput()
    ensures Collect(Split("", '\n')) == map[]
  {
    SingleLine("");
  }

  /** A line without a colon adds nothing to what the earlier lines gave. */
  lemma {:induction false} LineWithoutColon(lines: seq<string>, line: string)
    requires ':' !in line
    ensures Collect(lines + [line]) == Collect(lines)
  {
    var es := Entries(lines + [line]);
    assert es[..|lines|] == Entries(lines);
    assert es[|lines|] == None;
  }

  /** A field the model marked "Not specified" is never stored, whatever its label. */
  lemma {:induction false} NotSpecifiedDropped(name: string, line: string)
    requires ':' !in name && '\n' !in name
    requires line == name + ": " + NotSpecified
    ensures Collect(Split(line, '\n')) == map[]
  {
    var rest := " " + NotSpecified;
    assert line == name + [':'] + rest;
    assert '\n' !in rest;
    SplitFirstUnique(line, ':', name, rest);
    StripAfterSpaces(" ", NotSpecified);
    assert Entry(line) == None;
    SingleLine(line);
  }

  /** A label-value pair that the renderer below can write and the parser can read back. */
  predicate WellFormedPair(p: (string, string)) {
    && ':' !in p.0 && '\n' !in p.0 && Stripped(p.0)
    && '\n' !in p.1 && Stripped(p.1) && Kept(p.1)
  }

  /** One `Label: value` line. */
  function RenderLine(p: (string, string)): string {
    p.0 + ": " + p.1
  }

  /** The block of lines the upstream prompt asks for, one pair per line. */
  function Render(pairs: seq<(string, string)>): string {
    Join(seq(|pairs|, i requires 0 <= i < |pairs| => RenderLine(pairs[i])), '\n')
  }

  /** The dictionary that `pairs` describe, later pairs overriding earlier ones. */
  function MapOf(pairs: seq<(string, string)>): map<string, string> {
    if pairs == [] then map[]
    else MapOf(pairs[..|pairs| - 1])[pairs[|pairs| - 1].0 := pairs[|pairs| - 1].1]
  }

  lemma {:induction false} RenderLineEntry(p: (string, string))
    requires WellFormedPair(p)
    ensures Entry(RenderLine(p)) == Some(p)
    ensures '\n' !in RenderLine(p)
  {
    var line := RenderLine(p);
    assert forall c :: c in line ==> c in p.0 || c in ": " || c in p.1;
    SplitFirstUnique(line, ':', p.0, " " + p.1);
    StripStripped(p.0);
    StripAfterSpaces(" ", p.1);
  }

  lemma {:induction false} FoldRendered(pairs: seq<(string, string)>, es: seq<Option<(string, string)>>)
    requires |es| == |pairs| && forall i :: 0 <= i < |pairs| ==> es[i] == Some(pairs[i])
    ensures Fold(es) == MapOf(pairs)
  {
    if pairs != [] {
      var n := |pairs| - 1;
      FoldRendered(pairs[..n], es[..n]);
    }
  }

  /** Parsing what was rendered gives the dictionary back (extraction is
      idempotent on well-formed field sets). */
  lemma {:induction false} RenderRoundTrip(pairs: seq<(string, string)>, text: string)
    requires forall i :: 0 <= i < |pairs| ==> WellFormedPair(pairs[i])
    requires text == Render(pairs)
    ensures Collect(Split(text, '\n')) == MapOf(pairs)
  {
    var lines := seq(|pairs|, i requires 0 <= i < |pairs| => RenderLine(pairs[i]));
    if pairs == [] {
      EmptyInput();
    } else {
      forall i | 0 <= i < |lines| ensures '\n' !in lines[i] && Entry(lines[i]) == Some(pairs[i]) {
        RenderLineEntry(pairs[i]);
      }
      SplitJoin(lines, '\n');
      FoldRendered(pairs, Entries(lines));
    }
  }
}
