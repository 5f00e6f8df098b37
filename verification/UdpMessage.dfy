/**
 The UDP messages between a station and its server: a start character, fields each followed by a separator, and an end
 character.
 */
module UdpMessage {

  // ---------- Finding a character ----------

  // The first place of c in text at or after from, or -1.
  function Find(text: string, c: char, from: nat): (place: int)
    requires from <= |text|
    ensures place == -1 || from <= place < |text|
    ensures if place == -1 then c !in text[from..] else text[place] == c && c !in text[from..place]
    decreases |text| - from
  {
    if from == |text| then -1
    else if text[from] == c then from
    else
      var rest := Find(text, c, from + 1);
      assert text[from..] == [text[from]] + text[from + 1..];
      assert rest != -1 ==> text[from..rest] == [text[from]] + text[from + 1..rest];
      rest
  }

  lemma {:induction false} FoundAt(text: string, c: char, from: nat, place: nat)
    requires from <= place < |text| && text[place] == c && c !in text[from..place]
    ensures Find(text, c, from) == place
    decreases place - from
  {
    if from < place {
      assert text[from..place] == [text[from]] + text[from + 1..place];
      FoundAt(text, c, from + 1, place);
    }
  }

  // ---------- Parsing ----------

  datatype Style = Style(start: char, end: char, separator: char)

  const STANDARD := Style('[', ']', '|')

  // The fields of the text between start and end; what follows the last separator counts only if it is not empty.
  function FieldsOf(text: string, separator: char): seq<string>
    decreases |text|
  {
    if text == "" then []
    else
      var place := Find(text, separator, 0);
      if place == -1 then [text] else [text[..place]] + FieldsOf(text[place + 1..], separator)
  }

  // The fields before a separator, then those after it.
  lemma FieldsStep(done: seq<string>, text: string, separator: char, place: int)
    requires text != "" && place == Find(text, separator, 0)
    ensures done + FieldsOf(text, separator)
         == if place == -1 then done + [text] else (done + [text[..place]]) + FieldsOf(text[place + 1..], separator)
  {
    if place != -1 {
      var rest := FieldsOf(text[place + 1..], separator);
      assert done + ([text[..place]] + rest) == (done + [text[..place]]) + rest;
    }
  }

  // From after the first start character, or the beginning, up to the next end character, or the end.
  function Content(text: string, style: Style): string {
    var start := Find(text, style.start, 0) + 1;
    var found := Find(text, style.end, start);
    text[start..if found == -1 then |text| else found]
  }

  function Parsed(text: string, style: Style): seq<string> {
    FieldsOf(Content(text, style), style.separator)
  }

  class ParseData {
    var field: seq<string>
    var style: Style

    constructor ()
      ensures field == [] && style == STANDARD
    {
      field, style := [], STANDARD;
    }

    method SetStyle(start: char, end: char, separator: char)
      modifies this`style
      ensures style == Style(start, end, separator)
    {
      style := Style(start, end, separator);
    }

    method Parse(text: string) returns (count: nat)
      modifies this`field
      ensures field == Parsed(text, style) && count == |field|
    {
      ghost var all, separator := Parsed(text, style), style.separator;
      field := [];
      var startpos := Find(text, style.start, 0) + 1;
      var endpos := Find(text, style.end, startpos);
      if endpos < 0 { endpos := |text|; }
      if endpos - startpos <= 0 { return 0; }
      var str := text[startpos..endpos];
      assert field + FieldsOf(str, separator) == all;
      assert FieldsOf("", separator) == [];
      hide Parsed, Content, FieldsOf;
      while true
        invariant str != "" && field + FieldsOf(str, separator) == all
        decreases |str|
      {
        var place := Find(str, style.separator, 0);
        FieldsStep(field, str, separator, place);
        if place >= 0 {
          field := field + [str[..place]];
          if place + 1 >= |str| { break; }
          str := str[place + 1..];
        } else {
          field := field + [str];
          break;
        }
      }
      count := |field|;
    }

    function Field(number: int): (text: string)
      reads this
      ensures 0 <= number < |field| ==> text == field[number]
    {
      if 0 <= number < |field| then field[number] else ""
    }
  }

  // ---------- Printing ----------

  function Separated(fields: seq<string>, separator: char): string {
    if fields == [] then "" else fields[0] + [separator] + Separated(fields[1..], separator)
  }

  function Printed(fields: seq<string>, style: Style): string {
    [style.start] + Separated(fields, style.separator) + [style.end]
  }

  predicate Clean(fields: seq<string>, style: Style) {
    forall f :: f in fields ==> style.end !in f && style.separator !in f
  }

  // ---------- Round trips ----------

  lemma {:induction false} FieldsOfSeparated(fields: seq<string>, separator: char)
    requires forall f :: f in fields ==> separator !in f
    ensures FieldsOf(Separated(fields, separator), separator) == fields
  {
    if fields != [] {
      var first, rest := fields[0], Separated(fields[1..], separator);
      var text := first + [separator] + rest;
      assert text[0..|first|] == first && text[|first| + 1..] == rest;
      FoundAt(text, separator, 0, |first|);
      FieldsOfSeparated(fields[1..], separator);
    }
  }

  lemma {:induction false} SeparatedClean(fields: seq<string>, style: Style)
    requires Clean(fields, style) && style.end != style.separator
    ensures style.end !in Separated(fields, style.separator)
  {
    if fields != [] {
      assert fields[0] in fields && forall f :: f in fields[1..] ==> f in fields;
      SeparatedClean(fields[1..], style);
    }
  }

  // The content of a text that starts with the start character and ends with the first end character.
  lemma ContentOf(inner: string, style: Style)
    requires style.end !in inner
    ensures Content([style.start] + inner + [style.end], style) == inner
  {
    var text := [style.start] + inner + [style.end];
    assert text[0..0] == "" && text[1..1 + |inner|] == inner;
    FoundAt(text, style.start, 0, 0);
    FoundAt(text, style.end, 1, 1 + |inner|);
  }

  lemma {:induction false} FieldsAreClean(text: string, style: Style)
    requires style.end !in text
    ensures Clean(FieldsOf(text, style.separator), style)
    decreases |text|
  {
    if text != "" {
      var place := Find(text, style.separator, 0);
      if place == -1 {
        assert text[0..] == text;
      } else {
        assert forall c :: c in text[..place] || c in text[place + 1..] ==> c in text;
        assert text[0..place] == text[..place];
        FieldsAreClean(text[place + 1..], style);
      }
    }
  }

  /** No field of a parsed message holds a separator or an end character. */
  lemma ParsedAreClean(text: string, style: Style)
    ensures Clean(Parsed(text, style), style)
  {
    var start := Find(text, style.start, 0) + 1;
    var found := Find(text, style.end, start);
    assert style.end !in Content(text, style);
    FieldsAreClean(Content(text, style), style);
  }

  /** Messages round-trip: what is parsed of a printed list of fields is that list, empty fields included, exactly when no
      field holds a separator or an end character. */
  lemma RoundTripExactly(fields: seq<string>, style: Style)
    requires style.end != style.separator
    ensures Parsed(Printed(fields, style), style) == fields <==> Clean(fields, style)
  {
    ParsedAreClean(Printed(fields, style), style);
    if Clean(fields, style) {
      SeparatedClean(fields, style);
      ContentOf(Separated(fields, style.separator), style);
      FieldsOfSeparated(fields, style.separator);
    }
  }

  /** Whatever text arrives, printing its fields and parsing them again gives the same fields. */
  lemma ParsePrintParse(text: string, style: Style)
    requires style.end != style.separator
    ensures Parsed(Printed(Parsed(text, style), style), style) == Parsed(text, style)
  {
    ParsedAreClean(text, style);
    RoundTripExactly(Parsed(text, style), style);
  }

  // ---------- The messages to the server ----------

  // The pieces between separators, empty ones included.
  function Split(text: string, separator: char): (pieces: seq<string>)
    ensures pieces != [] && forall p :: p in pieces ==> separator !in p
    decreases |text|
  {
    var place := Find(text, separator, 0);
    if place == -1 then assert text[0..] == text; [text]
    else assert text[0..place] == text[..place]; [text[..place]] + Split(text[place + 1..], separator)
  }

  lemma SeparatedMore(first: string, rest: seq<string>, separator: char)
    ensures Separated([first] + rest, separator) == first + [separator] + Separated(rest, separator)
  {
    assert ([first] + rest)[1..] == rest;
  }

  lemma SplitStep(text: string, separator: char)
    ensures var place := Find(text, separator, 0);
            Split(text, separator) == if place == -1 then [text] + [] else [text[..place]] + Split(text[place + 1..], separator)
  {
  }

  lemma {:induction false} SplitSeparated(text: string, separator: char)
    ensures Separated(Split(text, separator), separator) == text + [separator]
    decreases |text|
  {
    SplitStep(text, separator);
    assert Separated([], separator) == "";
    hide Split, Separated, Find;
    var place := Find(text, separator, 0);
    if place == -1 {
      SeparatedMore(text, [], separator);
    } else {
      var first, rest := text[..place], text[place + 1..];
      SplitSeparated(rest, separator);
      SeparatedMore(first, Split(rest, separator), separator);
      assert text == first + [separator] + rest;
      assert text + [separator] == first + [separator] + (rest + [separator]);
    }
  }

  method SendMsg2Server(station: string, id: string, command: string, data: string) returns (message: string)
    ensures message == Printed([station, id, command] + Split(data, '|'), STANDARD)
  {
    message := "[" + station + "|" + id + "|" + command + "|";
    message := message + data + "|]";
    SplitSeparated(data, '|');
    var pieces := Split(data, '|');
    hide Split, Separated;
    SeparatedMore(command, pieces, '|');
    SeparatedMore(id, [command] + pieces, '|');
    SeparatedMore(station, [id] + ([command] + pieces), '|');
    assert [station, id, command] + pieces == [station] + ([id] + ([command] + pieces));
  }

  /** The server reads back the station, its number, the command and the pieces of the data, if none holds a character of
      the message's own. */
  lemma ServerReads(station: string, id: string, command: string, data: string)
    requires Clean([station, id, command], STANDARD) && ']' !in data
    ensures var fields := [station, id, command] + Split(data, '|');
            Parsed(Printed(fields, STANDARD), STANDARD) == fields
  {
    var pieces := Split(data, '|');
    PiecesWithin(data, '|', ']');
    assert forall f :: f in [station, id, command] + pieces ==> f in [station, id, command] || f in pieces;
    RoundTripExactly([station, id, command] + pieces, STANDARD);
  }

  lemma {:induction false} PiecesWithin(text: string, separator: char, c: char)
    requires c !in text
    ensures forall p :: p in Split(text, separator) ==> c !in p
    decreases |text|
  {
    var place := Find(text, separator, 0);
    if place != -1 {
      assert forall d :: d in text[..place] || d in text[place + 1..] ==> d in text;
      PiecesWithin(text[place + 1..], separator, c);
    }
  }
}
