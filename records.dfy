/** The layout of the solver input file: "key = value" lines, grouped into
    sections. A section is a "// title" comment, a count line ("numberBC = n"
    or "numberFiles = n") and one record per entry. Each record opens with a
    line on the section's record key ("index = i" or "tag = i") and continues
    with its field lines.

    The decoder below reads such a section back. Its round trip
    (SectionRoundTrip) shows that the text written for a section determines
    the records it was written from, their number and their order. */
module Records {
  import opened Wrappers
  import opened Strings

  datatype Field = Field(key: string, value: string)

  /** One entry of a section: the value on its record-key line, then its fields. */
  datatype Record = Record(head: string, fields: seq<Field>)

  /** The line `f.write(f"{key} = {value}\n")` writes. */
  function Line(key: string, value: string): string {
    key + " = " + value
  }

  function FieldLines(fs: seq<Field>): (ls: seq<string>)
    ensures |ls| == |fs|
  {
    seq(|fs|, i requires 0 <= i < |fs| => Line(fs[i].key, fs[i].value))
  }

  function RecordLines(key: string, r: Record): seq<string> {
    [Line(key, r.head)] + FieldLines(r.fields)
  }

  function Render(key: string, recs: seq<Record>): seq<string> {
    if recs == [] then [] else RecordLines(key, recs[0]) + Render(key, recs[1..])
  }

  /** A whole section: comment, count of records, then the records. */
  function Section(title: string, countKey: string, key: string, recs: seq<Record>): seq<string> {
    ["// " + title, Line(countKey, NatToString(|recs|))] + Render(key, recs)
  }

  /** Pairs each key with the value in the same place. */
  function Zip(keys: seq<string>, values: seq<string>): (fs: seq<Field>)
    requires |keys| == |values|
    ensures |fs| == |keys|
  {
    seq(|keys|, i requires 0 <= i < |keys| => Field(keys[i], values[i]))
  }

  /** The first value stored under `key` among a record's fields. */
  function Value(r: Record, key: string): Option<string> {
    FieldValue(r.fields, key)
  }

  function FieldValue(fs: seq<Field>, key: string): Option<string> {
    if fs == [] then None
    else if fs[0].key == key then Some(fs[0].value)
    else FieldValue(fs[1..], key)
  }

  /** Keys are non-empty words: they hold no space. */
  predicate ValidKey(k: string) {
    |k| > 0 && ' ' !in k
  }

  /** The records can be told apart from their fields: every field key is a
      valid key different from the record key. */
  predicate Fits(key: string, recs: seq<Record>) {
    ValidKey(key) && forall i :: 0 <= i < |recs| ==> FieldsFit(key, recs[i].fields)
  }

  predicate FieldsFit(key: string, fs: seq<Field>) {
    forall j :: 0 <= j < |fs| ==> ValidKey(fs[j].key) && fs[j].key != key
  }

  /** The lookup finds the first field on the key. */
  lemma {:induction false} FieldValueAt(fs: seq<Field>, j: nat, key: string)
    requires j < |fs| && fs[j].key == key
    requires forall k :: 0 <= k < j ==> fs[k].key != key
    ensures FieldValue(fs, key) == Some(fs[j].value)
    decreases j
  {
    if j > 0 {
      FieldValueAt(fs[1..], j - 1, key);
    }
  }

  lemma {:induction false} FieldValueNone(fs: seq<Field>, key: string)
    requires forall k :: 0 <= k < |fs| ==> fs[k].key != key
    ensures FieldValue(fs, key) == None
    decreases |fs|
  {
    if fs != [] {
      FieldValueNone(fs[1..], key);
    }
  }

  /** With distinct keys, looking a key up finds the value zipped with it. */
  lemma ZipLookup(keys: seq<string>, values: seq<string>, j: nat)
    requires |keys| == |values| && j < |keys|
    requires forall k :: 0 <= k < j ==> keys[k] != keys[j]
    ensures FieldValue(Zip(keys, values), keys[j]) == Some(values[j])
  {
    FieldValueAt(Zip(keys, values), j, keys[j]);
  }

  // ---------------------------------------------------------------------------
  // Reading a section back
  // ---------------------------------------------------------------------------

  /** The value of a line on `key`, if the line is on `key`. */
  function StripKey(key: string, line: string): Option<string> {
    var p := key + " = ";
    if IsPrefix(p, line) then Some(line[|p|..]) else None
  }

  function SpaceIndex(s: string): (i: nat)
    ensures i <= |s|
    ensures i < |s| ==> s[i] == ' '
    ensures forall j :: 0 <= j < i ==> s[j] != ' '
  {
    if s == [] then 0 else if s[0] == ' ' then 0 else 1 + SpaceIndex(s[1..])
  }

  /** Splits a line at its first " = ". */
  function SplitField(line: string): Option<Field> {
    var i := SpaceIndex(line);
    if i + 3 <= |line| && line[i..i + 3] == " = " then Some(Field(line[..i], line[i + 3..])) else None
  }

  function DecodeFields(lines: seq<string>): Option<seq<Field>> {
    if lines == [] then Some([])
    else match SplitField(lines[0])
      case None => None
      case Some(f) =>
        match DecodeFields(lines[1..])
        case None => None
        case Some(fs) => Some([f] + fs)
  }

  /** How many leading lines are not on the record key: the fields of one record. */
  function FieldRun(key: string, lines: seq<string>): (n: nat)
    ensures n <= |lines|
  {
    if lines == [] || StripKey(key, lines[0]).Some? then 0 else 1 + FieldRun(key, lines[1..])
  }

  function DecodeRecords(key: string, lines: seq<string>): Option<seq<Record>>
    decreases |lines|
  {
    if lines == [] then Some([])
    else match StripKey(key, lines[0])
      case None => None
      case Some(head) =>
        var n := FieldRun(key, lines[1..]);
        match DecodeFields(lines[1..1 + n])
        case None => None
        case Some(fs) =>
          match DecodeRecords(key, lines[1 + n..])
          case None => None
          case Some(rest) => Some([Record(head, fs)] + rest)
  }

  /** Reads a section; fails unless the count line agrees with the records found. */
  function DecodeSection(title: string, countKey: string, key: string, lines: seq<string>): Option<seq<Record>> {
    if |lines| < 2 || lines[0] != "// " + title then None
    else match StripKey(countKey, lines[1])
      case None => None
      case Some(c) =>
        match ParseNat(c)
        case None => None
        case Some(n) =>
          match DecodeRecords(key, lines[2..])
          case None => None
          case Some(recs) => if |recs| == n then Some(recs) else None
  }

  // ---------------------------------------------------------------------------
  // Round trip
  // ---------------------------------------------------------------------------

  lemma StripKeyLine(key: string, v: string)
    ensures StripKey(key, Line(key, v)) == Some(v)
  {
    var p := key + " = ";
    assert Line(key, v) == p + v;
    assert (p + v)[..|p|] == p;
    assert (p + v)[|p|..] == v;
  }

  /** A line on one key is never mistaken for a line on another. */
  lemma StripOtherKey(key: string, k: string, v: string)
    requires ValidKey(key) && ValidKey(k) && k != key
    ensures StripKey(key, Line(k, v)) == None
  {
    if IsPrefix(key + " = ", Line(k, v)) {
      SameKey(key, k, v);
    }
  }

  lemma SameKey(key: string, k: string, v: string)
    requires ' ' !in key && ' ' !in k
    requires IsPrefix(key + " = ", Line(k, v))
    ensures key == k
  {
    var p := key + " = ";
    var l := Line(k, v);
    assert l == k + (" = " + v);
    FirstSpace(k, " = " + v);
    assert l == key + (" = " + l[|p|..]);
    FirstSpace(key, " = " + l[|p|..]);
    assert l[..|k|] == k;
    assert p[..|key|] == key;
    assert l[..|p|][..|k|] == l[..|k|];
  }

  /** The first space of `k + rest` is the one that opens `rest`. */
  lemma FirstSpace(k: string, rest: string)
    requires ' ' !in k && |rest| > 0 && rest[0] == ' '
    ensures SpaceIndex(k + rest) == |k|
  {
    assert (k + rest)[|k|] == ' ';
  }

  lemma SplitLine(k: string, v: string)
    requires ValidKey(k)
    ensures SplitField(Line(k, v)) == Some(Field(k, v))
  {
    var l := Line(k, v);
    var i := SpaceIndex(l);
    assert l == k + (" = " + v);
    FirstSpace(k, " = " + v);
    assert l[i..i + 3] == " = ";
    assert l[..i] == k;
    assert l[i + 3..] == v;
  }

  lemma {:induction false} DecodeFieldLines(fs: seq<Field>)
    requires forall j :: 0 <= j < |fs| ==> ValidKey(fs[j].key)
    ensures DecodeFields(FieldLines(fs)) == Some(fs)
  {
    if fs != [] {
      SplitLine(fs[0].key, fs[0].value);
      DecodeFieldLines(fs[1..]);
      assert FieldLines(fs)[1..] == FieldLines(fs[1..]);
      assert [fs[0]] + fs[1..] == fs;
    }
  }

  lemma {:induction false} FieldRunOfFields(key: string, fs: seq<Field>, rest: seq<string>)
    requires ValidKey(key)
    requires FieldsFit(key, fs)
    requires rest == [] || StripKey(key, rest[0]).Some?
    ensures FieldRun(key, FieldLines(fs) + rest) == |fs|
  {
    if fs == [] {
      assert FieldLines(fs) + rest == rest;
    } else {
      var ls := FieldLines(fs) + rest;
      StripOtherKey(key, fs[0].key, fs[0].value);
      assert ls[0] == Line(fs[0].key, fs[0].value);
      assert ls[1..] == FieldLines(fs[1..]) + rest;
      FieldRunOfFields(key, fs[1..], rest);
    }
  }

  lemma RenderHead(key: string, recs: seq<Record>)
    ensures Render(key, recs) == [] || StripKey(key, Render(key, recs)[0]).Some?
  {
    if recs != [] {
      StripKeyLine(key, recs[0].head);
    }
  }

  /** Reading back the records of a section gives exactly the records written. */
  lemma {:induction false} DecodeRender(key: string, recs: seq<Record>)
    requires Fits(key, recs)
    ensures DecodeRecords(key, Render(key, recs)) == Some(recs)
  {
    if recs != [] {
      var r := recs[0];
      var rest := Render(key, recs[1..]);
      var ls := Render(key, recs);
      var fl := FieldLines(r.fields);
      assert ls == [Line(key, r.head)] + (fl + rest);
      StripKeyLine(key, r.head);
      RenderHead(key, recs[1..]);
      FieldRunOfFields(key, r.fields, rest);
      assert ls[1..] == fl + rest;
      assert ls[1..][..|fl|] == fl;
      assert ls[1 + |fl|..] == rest;
      DecodeFieldLines(r.fields);
      assert Fits(key, recs[1..]) by {
        forall i | 0 <= i < |recs[1..]|
          ensures FieldsFit(key, recs[1..][i].fields)
        {
          assert recs[1..][i] == recs[i + 1];
        }
      }
      DecodeRender(key, recs[1..]);
      assert [Record(r.head, r.fields)] + recs[1..] == recs;
    }
  }

  /** A written section reads back as the records it was written from; in
      particular its count line equals the number of records. */
  lemma SectionRoundTrip(title: string, countKey: string, key: string, recs: seq<Record>)
    requires ValidKey(countKey) && Fits(key, recs)
    ensures DecodeSection(title, countKey, key, Section(title, countKey, key, recs)) == Some(recs)
  {
    var ls := Section(title, countKey, key, recs);
    StripKeyLine(countKey, NatToString(|recs|));
    ParseNatToString(|recs|);
    assert ls[2..] == Render(key, recs);
    DecodeRender(key, recs);
  }

  lemma {:induction false} RenderConcat(key: string, a: seq<Record>, b: seq<Record>)
    ensures Render(key, a + b) == Render(key, a) + Render(key, b)
  {
    if a == [] {
      assert a + b == b;
    } else {
      assert (a + b)[0] == a[0];
      assert (a + b)[1..] == a[1..] + b;
      RenderConcat(key, a[1..], b);
    }
  }

  /** Writing record `i` after the first `i` records rendered below `head`. */
  lemma RenderStep(key: string, recs: seq<Record>, i: nat, head: seq<string>, lines: seq<string>)
    requires i < |recs| && lines == head + Render(key, recs[..i])
    ensures lines + RecordLines(key, recs[i]) == head + Render(key, recs[..i + 1])
  {
    RenderSnoc(key, recs, i);
    assert head + Render(key, recs[..i]) + RecordLines(key, recs[i]) == head + (Render(key, recs[..i]) + RecordLines(key, recs[i]));
  }

  lemma RenderSnoc(key: string, recs: seq<Record>, i: nat)
    requires i < |recs|
    ensures Render(key, recs[..i + 1]) == Render(key, recs[..i]) + RecordLines(key, recs[i])
  {
    assert recs[..i + 1] == recs[..i] + [recs[i]];
    RenderConcat(key, recs[..i], [recs[i]]);
    assert Render(key, [recs[i]]) == RecordLines(key, recs[i]) + Render(key, []);
  }
}
