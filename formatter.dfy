/** The reply text for a found vehicle: a heading, then one labelled line
    per field in the fixed order ID, Hex, Name, Model, GXT, and a Notes
    line last when the record has truthy notes. */
module Formatter {
  import opened Text
  import opened Records

  const Heading: string := "\U{1F697} *Vehicle Information*\n\n"
  const NotesLabel: string := "*Notes:* "

  /** The five labelled field lines, in order. */
  function FieldLines(v: Record): seq<string> {
    [ "*ID:* `" + DisplayOrNA(v.id) + "`",
      "*Hex:* `" + DisplayOrNA(v.hex) + "`",
      "*Name:* " + DisplayOrNA(v.name),
      "*Model:* `" + DisplayOrNA(v.model) + "`",
      "*GXT:* `" + DisplayOrNA(v.gxt) + "`" ]
  }

  /** The lines that follow the heading: the field lines, then a Notes line
      when the notes are truthy. */
  function InfoLines(v: Record): seq<string> {
    FieldLines(v) + (if Truthy(v.notes) then [NotesLabel + Display(v.notes)] else [])
  }

  /** The whole message: the heading followed by the lines, one per row. */
  function VehicleInfo(v: Record): (s: string)
    ensures StartsWith(s, Heading)
  {
    Heading + JoinLines(InfoLines(v))
  }

  /** `format_vehicle_info`: builds the text by appending to a local string. */
  method FormatVehicleInfo(v: Record) returns (info: string)
    ensures info == VehicleInfo(v)
  {
    info := Heading;
    info := info + "*ID:* `" + DisplayOrNA(v.id) + "`\n";
    info := info + "*Hex:* `" + DisplayOrNA(v.hex) + "`\n";
    info := info + "*Name:* " + DisplayOrNA(v.name) + "\n";
    info := info + "*Model:* `" + DisplayOrNA(v.model) + "`\n";
    info := info + "*GXT:* `" + DisplayOrNA(v.gxt) + "`";
    if Truthy(v.notes) {
      info := info + "\n" + NotesLabel + Display(v.notes);
    }
    FieldBlockLayout(v);
    InfoWithNotes(v);
  }

  /** `s` begins with `prefix`. */
  predicate StartsWith(s: string, prefix: string) {
    |prefix| <= |s| && s[..|prefix|] == prefix
  }

  /** Field lines come in the order ID, Hex, Name, Model, GXT, each its label
      followed by the field's rendering (in back-ticks but for the name); an
      absent key reads `N/A` and a null reads `None`, on every line. */
  lemma FieldLinesInOrder(v: Record)
    ensures |InfoLines(v)| == if Truthy(v.notes) then 6 else 5
    ensures InfoLines(v)[0] == "*ID:* `" + DisplayOrNA(v.id) + "`"
    ensures InfoLines(v)[1] == "*Hex:* `" + DisplayOrNA(v.hex) + "`"
    ensures InfoLines(v)[2] == "*Name:* " + DisplayOrNA(v.name)
    ensures InfoLines(v)[3] == "*Model:* `" + DisplayOrNA(v.model) + "`"
    ensures InfoLines(v)[4] == "*GXT:* `" + DisplayOrNA(v.gxt) + "`"
    ensures v.id == Missing ==> InfoLines(v)[0] == "*ID:* `N/A`"
    ensures v.hex == Missing ==> InfoLines(v)[1] == "*Hex:* `N/A`"
    ensures v.name == Missing ==> InfoLines(v)[2] == "*Name:* N/A"
    ensures v.model == Missing ==> InfoLines(v)[3] == "*Model:* `N/A`"
    ensures v.gxt == Missing ==> InfoLines(v)[4] == "*GXT:* `N/A`"
    ensures v.id == Null ==> InfoLines(v)[0] == "*ID:* `None`"
    ensures v.hex == Null ==> InfoLines(v)[1] == "*Hex:* `None`"
    ensures v.name == Null ==> InfoLines(v)[2] == "*Name:* None"
    ensures v.model == Null ==> InfoLines(v)[3] == "*Model:* `None`"
    ensures v.gxt == Null ==> InfoLines(v)[4] == "*GXT:* `None`"
  {
    var ls := InfoLines(v);
    assert ls[0] == "*ID:* `" + DisplayOrNA(v.id) + "`";
    assert ls[1] == "*Hex:* `" + DisplayOrNA(v.hex) + "`";
    assert ls[2] == "*Name:* " + DisplayOrNA(v.name);
    assert ls[3] == "*Model:* `" + DisplayOrNA(v.model) + "`";
    assert ls[4] == "*GXT:* `" + DisplayOrNA(v.gxt) + "`";
  }

  /** A Notes line appears exactly when the notes are truthy, only once, and last. */
  lemma NotesLineOnceAndLast(v: Record)
    ensures Truthy(v.notes) ==> StartsWith(InfoLines(v)[|InfoLines(v)| - 1], NotesLabel)
    ensures forall k :: 0 <= k < |InfoLines(v)| && StartsWith(InfoLines(v)[k], NotesLabel) ==>
      Truthy(v.notes) && k == |InfoLines(v)| - 1
  {
    var ls := InfoLines(v);
    FieldLinesInOrder(v);
    forall k | 0 <= k < 5
      ensures !StartsWith(ls[k], NotesLabel)
    {
      assert ls[k][1] != 'N' || ls[k][2] != 'o';
    }
    if Truthy(v.notes) {
      assert ls[5] == NotesLabel + Display(v.notes);
    }
  }

  /** The notes only ever add a suffix: with falsy notes the text is the one
      for a record without notes; with truthy notes it is that text, a line
      break, and the Notes line. */
  lemma InfoWithNotes(v: Record)
    ensures VehicleInfo(v) == VehicleInfo(v.(notes := Missing))
      + (if Truthy(v.notes) then "\n" + NotesLabel + Display(v.notes) else "")
  {
    var base := FieldLines(v);
    assert InfoLines(v.(notes := Missing)) == base;
    if Truthy(v.notes) {
      var notesLine := NotesLabel + Display(v.notes);
      assert InfoLines(v) == base + [notesLine];
      HeadingThenLine(base, notesLine);
    } else {
      assert InfoLines(v) == base;
    }
  }

  /** One more line after the heading and some lines is a line break and
      that line at the end of the text. */
  lemma HeadingThenLine(base: seq<string>, line: string)
    requires base != []
    ensures Heading + JoinLines(base + [line]) == (Heading + JoinLines(base)) + ("\n" + line)
  {
    JoinLinesSnoc(base, line);
    var body := JoinLines(base);
    assert Heading + (body + "\n" + line) == (Heading + body) + ("\n" + line);
  }

  /** Appending a piece that ends in a back-tick and a line break is appending
      the line and then the break. */
  lemma AppendTicked(acc: string, tag: string, x: string)
    ensures acc + tag + x + "`\n" == acc + (tag + x + "`") + "\n"
  {
    assert "`\n" == "`" + "\n";
  }

  /** The five field lines joined after the heading are the pieces
      `format_vehicle_info` appends one after the other. */
  lemma {:induction false} FieldBlockPieces(x1: string, x2: string, x3: string, x4: string, x5: string)
    ensures Heading + JoinLines(["*ID:* `" + x1 + "`", "*Hex:* `" + x2 + "`", "*Name:* " + x3,
                                 "*Model:* `" + x4 + "`", "*GXT:* `" + x5 + "`"])
         == Heading + "*ID:* `" + x1 + "`\n" + "*Hex:* `" + x2 + "`\n" + "*Name:* " + x3 + "\n"
            + "*Model:* `" + x4 + "`\n" + "*GXT:* `" + x5 + "`"
  {
    var a, b, c, d, e := "*ID:* `" + x1 + "`", "*Hex:* `" + x2 + "`", "*Name:* " + x3,
                         "*Model:* `" + x4 + "`", "*GXT:* `" + x5 + "`";
    JoinLinesFive(a, b, c, d, e);
    var s1 := Heading + "*ID:* `" + x1 + "`\n";
    AppendTicked(Heading, "*ID:* `", x1);
    var s2 := s1 + "*Hex:* `" + x2 + "`\n";
    AppendTicked(s1, "*Hex:* `", x2);
    var s3 := s2 + "*Name:* " + x3 + "\n";
    var s4 := s3 + "*Model:* `" + x4 + "`\n";
    AppendTicked(s3, "*Model:* `", x4);
    var s5 := s4 + "*GXT:* `" + x5 + "`";
    assert s5 == Heading + a + "\n" + b + "\n" + c + "\n" + d + "\n" + e;
  }

  /** Without notes the text is the heading and the five field lines, each
      but the last ended by a line break. */
  lemma FieldBlockLayout(v: Record)
    ensures VehicleInfo(v.(notes := Missing)) == Heading
      + "*ID:* `" + DisplayOrNA(v.id) + "`\n"
      + "*Hex:* `" + DisplayOrNA(v.hex) + "`\n"
      + "*Name:* " + DisplayOrNA(v.name) + "\n"
      + "*Model:* `" + DisplayOrNA(v.model) + "`\n"
      + "*GXT:* `" + DisplayOrNA(v.gxt) + "`"
  {
    assert InfoLines(v.(notes := Missing)) == FieldLines(v);
    FieldBlockPieces(DisplayOrNA(v.id), DisplayOrNA(v.hex), DisplayOrNA(v.name),
                     DisplayOrNA(v.model), DisplayOrNA(v.gxt));
  }
}
