/** Which columns a written mask withholds. */
module WrittenMasks {

  import opened Prelude
  import opened Text
  import opened Json
  import opened Obligations

  /** A column as it is written between two commas; no name at all is a blank entry. */
  type Entry = Spaced

  ghost predicate IsEntry(e: Entry) {
    e.Valid() && ',' !in e.text
  }

  ghost predicate AllValid(entries: seq<Entry>) {
    entries != [] && forall e :: e in entries ==> IsEntry(e)
  }

  function Texts(entries: seq<Entry>): (texts: seq<string>)
    ensures |texts| == |entries|
    ensures forall i :: 0 <= i < |entries| ==> texts[i] == entries[i].Written()
  {
    seq(|entries|, i requires 0 <= i < |entries| => entries[i].Written())
  }

  /** The annotation that lists them. */
  function Written(entries: seq<Entry>): string {
    Join(Texts(entries), ',')
  }

  // ---------------------------------------------------------------------------
  // What is withheld
  // ---------------------------------------------------------------------------

  lemma TrimOfEntry(e: Entry)
    requires IsEntry(e)
    ensures Trim(e.Written()) == e.text && ',' !in e.Written()
  {
    assert !IsWhitespace(',');
    TrimOfSpaced(e);
  }

  lemma EntriesAreSplit(entries: seq<Entry>)
    requires AllValid(entries)
    ensures Split(Written(entries), ',') == Texts(entries)
  {
    forall i | 0 <= i < |entries| ensures ',' !in Texts(entries)[i] {
      TrimOfEntry(entries[i]);
    }
    SplitJoin(Texts(entries), ',');
  }

  ghost predicate Lists(entries: seq<Entry>, column: string) {
    column != "" && exists i :: 0 <= i < |entries| && entries[i].text == column
  }

  lemma MaskListsIff(entries: seq<Entry>, column: string)
    requires AllValid(entries)
    ensures column in MaskColumns(Written(entries)) <==> Lists(entries, column)
  {
    EntriesAreSplit(entries);
    forall i | 0 <= i < |entries| ensures Trim(Texts(entries)[i]) == entries[i].text {
      TrimOfEntry(entries[i]);
    }
    if column in MaskColumns(Written(entries)) {
      var part :| part in Texts(entries) && Trim(part) == column && column != "";
      var i :| 0 <= i < |entries| && Texts(entries)[i] == part;
      assert Lists(entries, column);
    }
    if Lists(entries, column) {
      var i :| 0 <= i < |entries| && entries[i].text == column;
      assert Texts(entries)[i] in Texts(entries);
    }
  }

  /** One permit withholds exactly the columns its annotation lists, however they are spaced. */
  lemma OneMaskWithholds(read: JsonReader, p: Policy, entries: seq<Entry>, column: string)
    requires AllValid(entries) && p.columnMask == Some(Written(entries))
    ensures column in Collected(read, [p]).columnMasks <==> Lists(entries, column)
  {
    MaskListsIff(entries, column);
    WithheldColumnsAreTheIntersection(read, [p], column);
    assert p in [p];
  }

  /** The list stands behind the permit's annotation; without an annotation it lists nothing. */
  ghost predicate Annotates(p: Policy, entries: seq<Entry>) {
    if p.columnMask.None? then entries == [] else AllValid(entries) && p.columnMask == Some(Written(entries))
  }

  /** Several permits withhold a column exactly when every one of them lists it. */
  lemma WrittenMasksWithhold(read: JsonReader, matched: seq<Policy>, lists: seq<seq<Entry>>, column: string)
    requires matched != [] && |lists| == |matched| && forall i :: 0 <= i < |matched| ==> Annotates(matched[i], lists[i])
    ensures column in Collected(read, matched).columnMasks <==> forall i :: 0 <= i < |lists| ==> Lists(lists[i], column)
  {
    WithheldColumnsAreTheIntersection(read, matched, column);
    forall i | 0 <= i < |matched| ensures column in MaskOf(matched[i]) <==> Lists(lists[i], column) {
      assert Annotates(matched[i], lists[i]);
      if matched[i].columnMask.Some? {
        MaskListsIff(lists[i], column);
      }
    }
    assert forall i :: 0 <= i < |matched| ==> matched[i] in matched;
  }

  /** The usual spelling: names with a comma and a space between them. */
  lemma SpacedMaskWithholds(read: JsonReader, p: Policy, a: string, b: string)
    requires IsTrimmed(a) && IsTrimmed(b) && a != "" && b != "" && ',' !in a && ',' !in b
    requires p.columnMask == Some(a + ", " + b)
    ensures Collected(read, [p]).columnMasks == {a, b}
  {
    var entries := [Spaced("", a, ""), Spaced(" ", b, "")];
    assert IsWhitespace(' ');
    assert entries[0].Written() == a && entries[1].Written() == " " + b;
    assert Texts(entries) == [a, " " + b];
    assert [a, " " + b][1..] == [" " + b];
    assert Written(entries) == a + [','] + Join([" " + b], ',');
    assert a + [','] + (" " + b) == a + ", " + b;
    forall column ensures column in Collected(read, [p]).columnMasks <==> column == a || column == b {
      OneMaskWithholds(read, p, entries, column);
      assert entries[0].text == a && entries[1].text == b;
    }
  }

  // ---------------------------------------------------------------------------
  // Every annotation is such a list
  // ---------------------------------------------------------------------------

  lemma {:induction false} EntriesOf(parts: seq<string>) returns (entries: seq<Entry>)
    requires Free(parts, ',')
    ensures Texts(entries) == parts && forall e :: e in entries ==> IsEntry(e)
  {
    if parts == [] {
      entries := [];
    } else {
      var before, after := Padding(parts[0]);
      var e := Spaced(before, Trim(parts[0]), after);
      assert parts[0] == before + e.text + after;
      assert forall i :: 0 <= i < |e.text| ==> parts[0][|before| + i] == e.text[i];
      assert ',' !in e.text;
      var rest := EntriesOf(parts[1..]);
      entries := [e] + rest;
      assert parts == [parts[0]] + parts[1..];
    }
  }

  lemma EveryMaskIsWritten(mask: string) returns (entries: seq<Entry>)
    ensures AllValid(entries) && Written(entries) == mask
  {
    SplitParts(mask, ',');
    entries := EntriesOf(Split(mask, ','));
  }
}
