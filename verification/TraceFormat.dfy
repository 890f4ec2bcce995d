/** Parsing a tracepoint `format` file into the fields it declares. */
module TraceFormat {
  import opened Common
  import opened Text

  datatype Field = Field(name: string, offset: nat, size: nat)

  // ----- the parser -----

  /** The declared name: the last token, without array suffix and pointer stars. */
  function NameOf(decl: string): Option<string> {
    match LastToken(decl)
    case None => None
    case Some(token) =>
      var name := TrimStars(BeforeFirst(token, '['));
      if name == "" then None else Some(name)
  }

  function PartValue(part: string, key: string): Option<nat> {
    match StripPrefix(Trim(part), key)
    case None => None
    case Some(rest) =>
      match StripPrefix(rest, ":")
      case None => None
      case Some(number) => ParseUsize(Trim(number))
  }

  /** The first part that names `key` and holds a number; one that does not is passed over. */
  function FirstValue(parts: seq<string>, key: string): Option<nat> {
    if parts == [] then None
    else
      match PartValue(parts[0], key)
      case Some(n) => Some(n)
      case None => FirstValue(parts[1..], key)
  }

  function Attr(attrs: string, key: string): Option<nat> {
    FirstValue(Split(attrs, ';'), key)
  }

  function FieldFrom(decl: string, attrs: string): Option<Field> {
    match NameOf(decl)
    case None => None
    case Some(name) =>
      match Attr(attrs, "offset")
      case None => None
      case Some(offset) =>
        match Attr(attrs, "size")
        case None => None
        case Some(size) => Some(Field(name, offset, size))
  }

  function ParseLine(line: string): Option<Field> {
    match StripPrefix(Trim(line), "field:")
    case None => None
    case Some(rest) =>
      match SplitOnce(rest, ';')
      case None => None
      case Some((decl, attrs)) => FieldFrom(decl, attrs)
  }

  function ParseLines(lines: seq<string>): seq<Field> {
    if lines == [] then []
    else
      match ParseLine(lines[0])
      case Some(field) => [field] + ParseLines(lines[1..])
      case None => ParseLines(lines[1..])
  }

  function ParseFormat(text: string): seq<Field> {
    ParseLines(Lines(text))
  }

  // ----- the printer -----

  /** One line of a format file. A declaration is any text before its name (`type`), pointer
      stars, the name, an array suffix and padding; other lines are given as they stand. */
  datatype Line =
    | Declares(indent: string, type_: string, stars: nat, field: Field, suffix: string, padding: string, tail: string)
    | Other(text: string)

  predicate IsName(name: string) {
    NoSpace(name) && name != "" && name[0] != '*' && '[' !in name && ';' !in name
  }

  predicate IsSuffix(suffix: string) {
    NoSpace(suffix) && ';' !in suffix && (suffix == "" || suffix[0] == '[')
  }

  predicate OneLiner(s: string) {
    '\n' !in s
  }

  predicate WellFormed(line: Line) {
    match line
    case Declares(indent, type_, _, field, suffix, padding, tail) =>
      && AllSpace(indent) && AllSpace(padding)
      && (type_ == "" || IsSpace(type_[|type_| - 1])) && ';' !in type_
      && IsName(field.name) && IsSuffix(suffix)
      && field.offset <= U64_MAX && field.size <= U64_MAX
      && OneLiner(indent) && OneLiner(type_) && OneLiner(padding) && OneLiner(tail)
    case Other(text) => OneLiner(text) && !("field:" <= Trim(text))
  }

  function Token(stars: nat, name: string, suffix: string): string {
    Stars(stars) + name + suffix
  }

  function Attributes(field: Field, tail: string): string {
    "\toffset:" + Decimal(field.offset) + ";" + ("\tsize:" + Decimal(field.size) + ";" + tail)
  }

  function Print(line: Line): string {
    match line
    case Declares(indent, type_, stars, field, suffix, padding, tail) =>
      indent + ("field:" + (type_ + Token(stars, field.name, suffix) + padding) + ";") + Attributes(field, tail)
    case Other(text) => text
  }

  function PrintAll(lines: seq<Line>): string {
    if lines == [] then "" else Print(lines[0]) + "\n" + PrintAll(lines[1..])
  }

  function Declared(lines: seq<Line>): seq<Field> {
    if lines == [] then []
    else
      (match lines[0] case Declares(_, _, _, field, _, _, _) => [field] case Other(_) => []) + Declared(lines[1..])
  }

  // ----- round trip -----

  lemma NameRoundTrip(type_: string, stars: nat, name: string, suffix: string, padding: string)
    requires type_ == "" || IsSpace(type_[|type_| - 1])
    requires IsName(name) && IsSuffix(suffix) && AllSpace(padding)
    ensures NameOf(type_ + Token(stars, name, suffix) + padding) == Some(name)
  {
    var token := Token(stars, name, suffix);
    StarsAreStars(stars);
    LastTokenIs(type_, token, padding);
    if suffix == "" {
      assert token == Stars(stars) + name;
      SplitOnceJoins(token, '[');
    } else {
      assert token == (Stars(stars) + name) + ['['] + suffix[1..];
      SplitOnceAt(Stars(stars) + name, '[', suffix[1..]);
    }
    TrimStarsDrops(stars, name);
  }

  lemma {:induction false} StarsAreStars(n: nat)
    ensures forall c :: c in Stars(n) ==> c == '*'
  {
    if n > 0 {
      StarsAreStars(n - 1);
    }
  }

  lemma TrimmedPart(key: string, n: nat)
    requires StartsSolid(key)
    ensures Trim("\t" + key + ":" + Decimal(n)) == key + (":" + Decimal(n))
  {
    var core := key + (":" + Decimal(n));
    DecimalIsSolid(n);
    assert core[0] == key[0] && core[|core| - 1] == Decimal(n)[|Decimal(n)| - 1];
    assert "\t" + key + ":" + Decimal(n) == "\t" + core + "";
    TrimAround("\t", core, "");
    assert core + TrimEnd("") == core;
  }

  lemma TrimmedNumber(n: nat)
    ensures Trim(Decimal(n)) == Decimal(n)
  {
    DecimalIsSolid(n);
    TrimAround("", Decimal(n), "");
    assert "" + Decimal(n) + "" == Decimal(n) == Decimal(n) + TrimEnd("");
  }

  lemma PartRoundTrip(key: string, n: nat)
    requires StartsSolid(key) && n <= U64_MAX
    ensures PartValue("\t" + key + ":" + Decimal(n), key) == Some(n)
  {
    TrimmedPart(key, n);
    StripPrefixOf(key, ":" + Decimal(n));
    StripPrefixOf(":", Decimal(n));
    TrimmedNumber(n);
    DecimalParses(n);
  }

  lemma DecimalIsSolid(n: nat)
    ensures StartsSolid(Decimal(n)) && EndsSolid(Decimal(n)) && ';' !in Decimal(n) && '\n' !in Decimal(n)
  {
    var s := Decimal(n);
    assert s[0] in s && s[|s| - 1] in s;
  }

  /** The parts between the semicolons of a printed field. */
  lemma AttributeParts(field: Field, tail: string)
    ensures Split(Attributes(field, tail), ';') ==
            ["\toffset:" + Decimal(field.offset)] + (["\tsize:" + Decimal(field.size)] + Split(tail, ';'))
  {
    var offset, size := "\toffset:" + Decimal(field.offset), "\tsize:" + Decimal(field.size);
    DecimalIsSolid(field.offset);
    DecimalIsSolid(field.size);
    SplitHead(offset, ';', size + ";" + tail);
    SplitHead(size, ';', tail);
    assert Attributes(field, tail) == offset + [';'] + (size + ";" + tail);
    assert size + ";" + tail == size + [';'] + tail;
  }

  lemma SecondValue(first: string, second: string, rest: seq<string>, key: string)
    requires PartValue(first, key).None? && PartValue(second, key).Some?
    ensures FirstValue([first] + ([second] + rest), key) == PartValue(second, key)
  {
    var parts := [first] + ([second] + rest);
    assert parts[1..] == [second] + rest;
  }

  /** The part gives the number `n` for `key`. */
  ghost predicate Gives(part: string, key: string, n: nat) {
    exists rest :: Trim(part) == key + (":" + rest) && ParseUsize(Trim(rest)) == Some(n)
  }

  lemma PartGives(part: string, key: string, n: nat)
    ensures PartValue(part, key) == Some(n) <==> Gives(part, key, n)
  {
    if PartValue(part, key) == Some(n) {
      var rest := StripPrefix(StripPrefix(Trim(part), key).value, ":").value;
      assert Trim(part) == key + (":" + rest);
    }
    if rest :| Trim(part) == key + (":" + rest) && ParseUsize(Trim(rest)) == Some(n) {
      StripPrefixOf(key, ":" + rest);
      StripPrefixOf(":", rest);
    }
  }

  ghost predicate GivesNothing(part: string, key: string) {
    forall m: nat :: !Gives(part, key, m)
  }

  lemma PartGivesNothing(part: string, key: string)
    ensures PartValue(part, key).None? <==> GivesNothing(part, key)
  {
    forall m: nat
      ensures PartValue(part, key) == Some(m) <==> Gives(part, key, m)
    {
      PartGives(part, key, m);
    }
  }

  ghost predicate GivesFirst(parts: seq<string>, key: string, n: nat, i: nat) {
    i < |parts| && Gives(parts[i], key, n) && forall j :: 0 <= j < i ==> GivesNothing(parts[j], key)
  }

  lemma GivesFirstLater(parts: seq<string>, key: string, n: nat, i: nat)
    requires parts != [] && GivesNothing(parts[0], key)
    ensures GivesFirst(parts, key, n, i + 1) <==> GivesFirst(parts[1..], key, n, i)
  {
    var rest := parts[1..];
    assert i < |rest| ==> parts[i + 1] == rest[i];
    if GivesFirst(parts, key, n, i + 1) {
      assert forall j :: 0 <= j < i ==> rest[j] == parts[j + 1];
    }
    if GivesFirst(rest, key, n, i) {
      assert forall j :: 0 < j < i + 1 ==> parts[j] == rest[j - 1];
    }
  }

  /** The first part that gives a number for the key decides, whatever those before it hold. */
  lemma {:induction false} FirstThatGives(parts: seq<string>, key: string, n: nat)
    ensures FirstValue(parts, key) == Some(n) <==> exists i: nat :: GivesFirst(parts, key, n, i)
  {
    if parts != [] {
      PartGives(parts[0], key, n);
      PartGivesNothing(parts[0], key);
      if PartValue(parts[0], key).Some? {
        HeadDecides(parts, key, n);
      } else {
        FirstThatGives(parts[1..], key, n);
        if i: nat :| GivesFirst(parts[1..], key, n, i) {
          GivesFirstLater(parts, key, n, i);
        }
        if i: nat :| GivesFirst(parts, key, n, i) {
          GivesFirstLater(parts, key, n, i - 1);
        }
      }
    }
  }

  lemma HeadDecides(parts: seq<string>, key: string, n: nat)
    requires parts != [] && !GivesNothing(parts[0], key)
    ensures (exists i: nat :: GivesFirst(parts, key, n, i)) <==> Gives(parts[0], key, n)
  {
    if Gives(parts[0], key, n) {
      assert GivesFirst(parts, key, n, 0);
    }
    if i: nat :| GivesFirst(parts, key, n, i) {
      assert i == 0;
    }
  }

  lemma AttributesRoundTrip(field: Field, tail: string)
    requires field.offset <= U64_MAX && field.size <= U64_MAX
    ensures Attr(Attributes(field, tail), "offset") == Some(field.offset)
    ensures Attr(Attributes(field, tail), "size") == Some(field.size)
  {
    var offset, size := "\toffset:" + Decimal(field.offset), "\tsize:" + Decimal(field.size);
    AttributeParts(field, tail);
    assert offset == "\t" + "offset" + ":" + Decimal(field.offset);
    assert size == "\t" + "size" + ":" + Decimal(field.size);
    PartRoundTrip("offset", field.offset);
    PartRoundTrip("size", field.size);
    OffsetIsNotSize(field.offset);
    SecondValue(offset, size, Split(tail, ';'), "size");
  }

  lemma OffsetIsNotSize(n: nat)
    ensures PartValue("\toffset:" + Decimal(n), "size") == None
  {
    assert "\toffset:" + Decimal(n) == "\t" + "offset" + ":" + Decimal(n);
    TrimmedPart("offset", n);
    OtherPrefix("size", "offset" + (":" + Decimal(n)));
  }

  lemma OtherPrefix(prefix: string, s: string)
    requires prefix != "" && s != "" && s[0] != prefix[0]
    ensures StripPrefix(s, prefix) == None
  {
  }

  lemma ReturnIsPadding(s: string)
    ensures Trim(WithoutReturn(s)) == Trim(s)
  {
    if s != "" && s[|s| - 1] == '\r' {
      TrimStartOfPadded(s[..|s| - 1], '\r');
      assert s == s[..|s| - 1] + ['\r'];
    }
  }

  lemma {:induction false} TrimStartOfPadded(s: string, c: char)
    requires IsSpace(c)
    ensures TrimEnd(TrimStart(s + [c])) == TrimEnd(TrimStart(s))
  {
    if s != "" && IsSpace(s[0]) {
      assert (s + [c])[1..] == s[1..] + [c];
      TrimStartOfPadded(s[1..], c);
    } else if s == "" {
      assert (s + [c])[1..] == "";
    } else {
      assert (s + [c])[..|s|] == s;
    }
  }

  /** The line between indentation and tail. */
  function Body(decl: string, field: Field): string {
    "field:" + decl + ";" + Attributes(field, "")
  }

  lemma BodyIsSolid(decl: string, field: Field)
    ensures StartsSolid(Body(decl, field)) && EndsSolid(Body(decl, field))
  {
    assert Body(decl, field)[0] == 'f';
  }

  lemma BodyThenTail(decl: string, field: Field, tail: string)
    ensures Body(decl, field) + tail == "field:" + (decl + [';'] + Attributes(field, tail))
  {
    var offset, size := "\toffset:" + Decimal(field.offset) + ";", "\tsize:" + Decimal(field.size) + ";";
    assert Attributes(field, "") == offset + size;
    assert Attributes(field, tail) == offset + size + tail;
  }

  lemma PrintedAround(line: Line)
    requires line.Declares?
    ensures var decl := line.type_ + Token(line.stars, line.field.name, line.suffix) + line.padding;
            Print(line) == line.indent + Body(decl, line.field) + line.tail
  {
    var decl := line.type_ + Token(line.stars, line.field.name, line.suffix) + line.padding;
    var attributes := Attributes(line.field, line.tail);
    BodyThenTail(decl, line.field, line.tail);
    assert line.indent + Body(decl, line.field) + line.tail == line.indent + (Body(decl, line.field) + line.tail);
    assert Print(line) == line.indent + ("field:" + (decl + [';'] + attributes));
  }

  lemma TrimmedBody(indent: string, decl: string, field: Field, tail: string)
    requires AllSpace(indent)
    ensures Trim(indent + Body(decl, field) + tail) == "field:" + (decl + [';'] + Attributes(field, TrimEnd(tail)))
  {
    BodyIsSolid(decl, field);
    TrimAround(indent, Body(decl, field), tail);
    BodyThenTail(decl, field, TrimEnd(tail));
  }

  lemma LineRoundTrip(line: Line)
    requires WellFormed(line)
    ensures ParseLine(WithoutReturn(Print(line))) == if line.Declares? then Some(line.field) else None
  {
    ReturnIsPadding(Print(line));
    if line.Declares? {
      var field := line.field;
      var decl := line.type_ + Token(line.stars, field.name, line.suffix) + line.padding;
      PrintedAround(line);
      TrimmedBody(line.indent, decl, field, line.tail);
      var tail := TrimEnd(line.tail);
      StripPrefixOf("field:", decl + [';'] + Attributes(field, tail));
      DeclarationHasNoSemicolon(line);
      SplitOnceAt(decl, ';', Attributes(field, tail));
      NameRoundTrip(line.type_, line.stars, field.name, line.suffix, line.padding);
      AttributesRoundTrip(field, tail);
    }
  }

  lemma DeclarationHasNoSemicolon(line: Line)
    requires WellFormed(line) && line.Declares?
    ensures ';' !in line.type_ + Token(line.stars, line.field.name, line.suffix) + line.padding
  {
    StarsAreStars(line.stars);
  }

  lemma TokenOnOneLine(stars: nat, name: string, suffix: string)
    requires IsName(name) && IsSuffix(suffix)
    ensures OneLiner(Token(stars, name, suffix))
  {
    StarsAreStars(stars);
    assert OneLiner(Stars(stars)) && OneLiner(name) && OneLiner(suffix);
  }

  lemma AttributesOnOneLine(field: Field, tail: string)
    requires OneLiner(tail)
    ensures OneLiner(Attributes(field, tail))
  {
    DecimalIsSolid(field.offset);
    DecimalIsSolid(field.size);
    var offset, size := "\toffset:" + Decimal(field.offset) + ";", "\tsize:" + Decimal(field.size) + ";";
    assert OneLiner(offset) && OneLiner(size);
    assert Attributes(field, tail) == offset + (size + tail);
  }

  lemma PrintedOnOneLine(line: Line)
    requires WellFormed(line)
    ensures OneLiner(Print(line))
  {
    if line.Declares? {
      TokenOnOneLine(line.stars, line.field.name, line.suffix);
      AttributesOnOneLine(line.field, line.tail);
      var decl := line.type_ + Token(line.stars, line.field.name, line.suffix) + line.padding;
      assert OneLiner(decl);
      assert Print(line) == line.indent + ("field:" + decl + ";") + Attributes(line.field, line.tail);
    }
  }

  lemma ParseMore(line: string, lines: seq<string>)
    ensures ParseLines([line] + lines) ==
            (if ParseLine(line).Some? then [ParseLine(line).value] else []) + ParseLines(lines)
  {
    assert ([line] + lines)[1..] == lines;
  }

  /** For every list of lines, parsing what they print gives exactly the fields they declare, in
      order and with offsets and sizes intact; all other lines are passed over. */
  lemma {:induction false} RoundTrip(lines: seq<Line>)
    requires forall line :: line in lines ==> WellFormed(line)
    ensures ParseFormat(PrintAll(lines)) == Declared(lines)
  {
    if lines != [] {
      PrintedOnOneLine(lines[0]);
      RoundTrip(lines[1..]);
      LinesHead(Print(lines[0]), PrintAll(lines[1..]));
      LineRoundTrip(lines[0]);
      ParseMore(WithoutReturn(Print(lines[0])), Lines(PrintAll(lines[1..])));
    }
  }

  /** An unended last line counts like any other. */
  lemma {:induction false} UnendedRoundTrip(lines: seq<Line>, last: Line)
    requires WellFormed(last) && forall line :: line in lines ==> WellFormed(line)
    ensures ParseFormat(PrintAll(lines) + Print(last)) == Declared(lines + [last])
  {
    if lines == [] {
      assert PrintAll(lines) + Print(last) == Print(last);
      assert lines + [last] == [last];
      UnendedLine(last);
    } else {
      var rest := PrintAll(lines[1..]) + Print(last);
      assert PrintAll(lines) + Print(last) == Print(lines[0]) + "\n" + rest;
      assert (lines + [last])[1..] == lines[1..] + [last];
      UnendedRoundTrip(lines[1..], last);
      PrintedOnOneLine(lines[0]);
      LinesHead(Print(lines[0]), rest);
      LineRoundTrip(lines[0]);
      ParseMore(WithoutReturn(Print(lines[0])), Lines(rest));
    }
  }

  lemma UnendedLine(line: Line)
    requires WellFormed(line)
    ensures ParseFormat(Print(line)) == Declared([line])
  {
    var text := Print(line);
    PrintedOnOneLine(line);
    SplitOnceJoins(text, '\n');
    LineRoundTrip(line);
    ReturnIsPadding(text);
    assert Declared([line]) == (if line.Declares? then [line.field] else []) + Declared([]);
    if text != "" {
      assert Lines(text) == [text] == [text] + [];
      ParseMore(text, []);
      assert ParseLine(text) == ParseLine(WithoutReturn(text));
    } else {
      assert Lines(text) == [];
    }
  }

  // ----- the kernel's own lines -----

  /** A field as the kernel's format files print it: tab, type, space, name, array, attributes. */
  function KernelLine(type_: string, array_: string, field: Field, signed: bool): string {
    "\tfield:" + type_ + " " + field.name + array_ + ";\toffset:" + Decimal(field.offset) +
    ";\tsize:" + Decimal(field.size) + ";\tsigned:" + (if signed then "1" else "0") + ";"
  }

  lemma KernelLineIsWellFormed(type_: string, array_: string, field: Field, tail: string)
    requires IsName(field.name) && IsSuffix(array_) && ';' !in type_ && '\n' !in type_ && OneLiner(tail)
    requires field.offset <= U64_MAX && field.size <= U64_MAX
    ensures WellFormed(Declares("\t", type_ + " ", 0, field, array_, "", tail))
  {
    assert (type_ + " ")[|type_ + " "| - 1] == ' ';
  }

  /** Every such line is read as its field, whatever words the type is of. */
  lemma KernelLineParses(type_: string, array_: string, field: Field, signed: bool)
    requires IsName(field.name) && IsSuffix(array_) && ';' !in type_ && '\n' !in type_
    requires field.offset <= U64_MAX && field.size <= U64_MAX
    ensures ParseFormat(KernelLine(type_, array_, field, signed) + "\n") == [field]
  {
    var sign := if signed then "\tsigned:1;" else "\tsigned:0;";
    KernelLineIsPrinted(type_, array_, field, signed);
    KernelLineIsWellFormed(type_, array_, field, sign);
    OneLineParses(Declares("\t", type_ + " ", 0, field, array_, "", sign));
  }

  /** And as well when it ends in a carriage return. */
  lemma KernelLineParsesWithReturn(type_: string, array_: string, field: Field, signed: bool)
    requires IsName(field.name) && IsSuffix(array_) && ';' !in type_ && '\n' !in type_
    requires field.offset <= U64_MAX && field.size <= U64_MAX
    ensures ParseFormat(KernelLine(type_, array_, field, signed) + "\r" + "\n") == [field]
  {
    var sign := if signed then "\tsigned:1;" else "\tsigned:0;";
    KernelLineIsPrinted(type_, array_, field, signed);
    KernelLineIsWellFormed(type_, array_, field, sign + "\r");
    PrintedWithTail(Declares("\t", type_ + " ", 0, field, array_, "", sign), "\r");
    OneLineParses(Declares("\t", type_ + " ", 0, field, array_, "", sign + "\r"));
  }

  lemma OneLineParses(line: Line)
    requires WellFormed(line) && line.Declares?
    ensures ParseFormat(Print(line) + "\n") == [line.field]
  {
    assert PrintAll([line]) == Print(line) + "\n" + PrintAll([]);
    assert Print(line) + "\n" + "" == Print(line) + "\n";
    RoundTrip([line]);
    assert Declared([line]) == [line.field] + Declared([]);
  }

  lemma PrintedWithTail(line: Line, more: string)
    requires line.Declares?
    ensures Print(line.(tail := line.tail + more)) == Print(line) + more
  {
    PrintedAround(line);
    PrintedAround(line.(tail := line.tail + more));
  }

  lemma SemicolonApart(before: string, key: string, value: string)
    ensures before + (";" + key) + value == (before + ";") + (key + value)
  {
  }

  lemma KernelDeclaration(type_: string, token: string)
    ensures "\tfield:" + type_ + " " + token + ";" == "\t" + ("field:" + (type_ + " " + token + "") + ";")
  {
  }

  lemma KernelAttributes(before: string, offset: string, size: string, sign: string)
    ensures before + ";\toffset:" + offset + ";\tsize:" + size + ";\tsigned:" + sign + ";" ==
            (before + ";") + ("\toffset:" + offset + ";" + ("\tsize:" + size + ";" + ("\tsigned:" + sign + ";")))
  {
    assert ";\toffset:" == ";" + "\toffset:" && ";\tsize:" == ";" + "\tsize:" && ";\tsigned:" == ";" + "\tsigned:";
    var first := before + ";" + ("\toffset:" + offset);
    SemicolonApart(before, "\toffset:", offset);
    SemicolonApart(first, "\tsize:", size);
    var second := first + ";" + ("\tsize:" + size);
    SemicolonApart(second, "\tsigned:", sign);
    FourParts(before + ";", "\toffset:" + offset, "\tsize:" + size, "\tsigned:" + sign);
  }

  lemma FourParts(a: string, b: string, c: string, d: string)
    ensures a + b + ";" + c + ";" + d + ";" == a + (b + ";" + (c + ";" + (d + ";")))
  {
  }

  lemma KernelLineIsPrinted(type_: string, array_: string, field: Field, signed: bool)
    ensures KernelLine(type_, array_, field, signed) ==
            Print(Declares("\t", type_ + " ", 0, field, array_, "", if signed then "\tsigned:1;" else "\tsigned:0;"))
  {
    var sign := if signed then "1" else "0";
    var token := field.name + array_;
    assert Token(0, field.name, array_) == token;
    assert (if signed then "\tsigned:1;" else "\tsigned:0;") == "\tsigned:" + sign + ";";
    assert "\tfield:" + type_ + " " + field.name + array_ == "\tfield:" + type_ + " " + token;
    KernelAttributes("\tfield:" + type_ + " " + token, Decimal(field.offset), Decimal(field.size), sign);
    KernelDeclaration(type_, token);
  }

  // ----- whatever the text -----

  predicate IsParsed(field: Field) {
    IsName(field.name) && field.offset <= U64_MAX && field.size <= U64_MAX
  }

  lemma NamesAreNames(decl: string)
    requires ';' !in decl && NameOf(decl).Some?
    ensures IsName(NameOf(decl).value)
  {
    var token := LastToken(decl).value;
    LastTokenIsToken(decl);
    SplitOnceJoins(token, '[');
    TrimStarsLeaves(BeforeFirst(token, '['));
  }

  lemma {:induction false} FirstValueFits(parts: seq<string>, key: string)
    ensures FirstValue(parts, key).Some? ==> FirstValue(parts, key).value <= U64_MAX
  {
    if parts != [] {
      FirstValueFits(parts[1..], key);
    }
  }

  lemma {:induction false} ParsedLinesAreParsed(lines: seq<string>)
    ensures forall field :: field in ParseLines(lines) ==> IsParsed(field)
  {
    if lines != [] {
      ParsedLinesAreParsed(lines[1..]);
      if ParseLine(lines[0]).Some? {
        var rest := StripPrefix(Trim(lines[0]), "field:").value;
        SplitOnceJoins(rest, ';');
        var (decl, attrs) := SplitOnce(rest, ';').value;
        NamesAreNames(decl);
        FirstValueFits(Split(attrs, ';'), "offset");
        FirstValueFits(Split(attrs, ';'), "size");
      }
    }
  }

  /** The kernel's plainest line for a field. */
  function Plain(field: Field): Line {
    Declares("\t", "", 0, field, "", "", "\tsigned:0;")
  }

  function PlainLines(fields: seq<Field>): (lines: seq<Line>)
    ensures |lines| == |fields| && forall i :: 0 <= i < |fields| ==> lines[i] == Plain(fields[i])
  {
    if fields == [] then [] else [Plain(fields[0])] + PlainLines(fields[1..])
  }

  lemma {:induction false} PlainDeclares(fields: seq<Field>)
    ensures Declared(PlainLines(fields)) == fields
  {
    if fields != [] {
      PlainDeclares(fields[1..]);
    }
  }

  /** For every text at all, the fields read off it survive being printed and read again: a
      parsed name is never empty, padded, starred, bracketed or cut by a semicolon. */
  lemma ReprintIsStable(text: string)
    ensures var fields := ParseFormat(text);
            ParseFormat(PrintAll(PlainLines(fields))) == fields
  {
    var fields := ParseFormat(text);
    ParsedLinesAreParsed(Lines(text));
    forall line | line in PlainLines(fields)
      ensures WellFormed(line)
    {
      var i :| 0 <= i < |fields| && PlainLines(fields)[i] == line;
      assert fields[i] in fields;
    }
    RoundTrip(PlainLines(fields));
    PlainDeclares(fields);
  }
}
