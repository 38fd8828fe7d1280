/**
 The two per-property blocks of a generated file: one accessor line per
 property in order, the primary-key line marked, closed by an empty line and
 a brace; and a reader that recovers the accessors from a block's text.
 */
module Blocks {
  import opened Wrappers
  import opened Strings
  import opened Schema
  import opened Accessors

  /** The static block of the object extension, or the instance block of the protocol extension. */
  datatype Style = Static | Instance

  /** The accessor line of one property in the given block. */
  function Declaration(style: Style, p: Property): string {
    match style
    case Static => Attribute(p)
    case Instance => AttributeExtensionAttribute(p)
  }

  /** Where the reader of the block's lines ends a name: a space on static lines, a colon on instance lines. */
  function NameEnd(style: Style): char {
    match style
    case Static => ' '
    case Instance => ':'
  }

  /**
   Every rendered property's line in the block is a single line whose name the
   reader recovers.
   */
  predicate Decodable(style: Style, o: ObjectSchema) {
    forall i :: 0 <= i < |AllProperties(o)| ==>
      SingleLineProperty(AllProperties(o)[i]) && NameEnd(style) !in AllProperties(o)[i].name
  }

  /** Reads an unmarked accessor line of the given block. */
  function ParseDeclaration(style: Style, line: string): Option<Accessor> {
    match style
    case Static => ParseStaticDeclaration(line)
    case Instance => ParseInstanceDeclaration(line)
  }

  /** One line per property, in order; a line is marked when its property is `primaryKey`. */
  function PropertyLines(style: Style, props: seq<Property>, primaryKey: Option<Property>): (r: seq<string>)
    ensures |r| == |props|
    ensures forall i :: 0 <= i < |props| ==>
      r[i] == Annotate(Declaration(style, props[i]), primaryKey == Some(props[i]))
  {
    if |props| == 0 then []
    else
      [Annotate(Declaration(style, props[0]), primaryKey == Some(props[0]))]
        + PropertyLines(style, props[1..], primaryKey)
  }

  /**
   The lines of one block, before joining: one per rendered property in the
   order of `AllProperties`, then an empty line and the closing brace.
   */
  function BlockLines(style: Style, o: ObjectSchema): (r: seq<string>)
    ensures |r| == |AllProperties(o)| + 2
    ensures forall i :: 0 <= i < |AllProperties(o)| ==>
      r[i] == Annotate(Declaration(style, AllProperties(o)[i]), IsPrimaryKey(o, AllProperties(o)[i]))
    ensures r[|r| - 2] == "" && r[|r| - 1] == "}"
  {
    PropertyLines(style, AllProperties(o), o.primaryKey) + ["", "}"]
  }

  /**
   Models `objectAttributes(for:)`: the static block joined by newlines. When
   no name holds a line break or a space, the text declares every property as a static accessor, in
   order, with the primary-key flag set exactly on the primary key.
   */
  function ObjectAttributes(o: ObjectSchema): (r: string)
    ensures Decodable(Static, o) ==> DecodeBlock(Static, r) == Some(Described(AllProperties(o), o.primaryKey))
  {
    if Decodable(Static, o) then
      DecodeBlockLines(Static, o);
      Join(BlockLines(Static, o), "\n")
    else
      Join(BlockLines(Static, o), "\n")
  }

  /**
   Models `attributeExtensionAttributes(for:)`: the instance block joined by
   newlines. When no name holds a line break or a colon, the text declares every
   property as an instance accessor, in order, with the primary-key flag set exactly on the
   primary key.
   */
  function AttributeExtensionAttributes(o: ObjectSchema): (r: string)
    ensures Decodable(Instance, o) ==> DecodeBlock(Instance, r) == Some(Described(AllProperties(o), o.primaryKey))
  {
    if Decodable(Instance, o) then
      DecodeBlockLines(Instance, o);
      Join(BlockLines(Instance, o), "\n")
    else
      Join(BlockLines(Instance, o), "\n")
  }

  /** A property line carries the primary-key mark exactly when its property is the primary key. */
  lemma PrimaryKeyMarkedExactly(style: Style, o: ObjectSchema, i: nat)
    requires i < |AllProperties(o)|
    ensures EndsWith(BlockLines(style, o)[i], PrimaryKeyMark) <==> IsPrimaryKey(o, AllProperties(o)[i])
    ensures StripMark(BlockLines(style, o)[i]) == (Declaration(style, AllProperties(o)[i]), IsPrimaryKey(o, AllProperties(o)[i]))
  {
    var p := AllProperties(o)[i];
    DeclarationEndsUnmarked(style, p);
    MarkRoundTrip(Declaration(style, p), IsPrimaryKey(o, p));
  }

  /** Whatever the names, an accessor line ends in `)` or `}`, never like the mark. */
  lemma DeclarationEndsUnmarked(style: Style, p: Property)
    ensures |Declaration(style, p)| > 0 && Declaration(style, p)[|Declaration(style, p)| - 1] != 'y'
  {
    match style {
      case Static =>
        var key := KeyArgument(p.name);
        assert key[|key| - 1] == ')';
        LastOfSuffix(Attribute(p), key);
      case Instance =>
        var getter := GetterArguments(p.name);
        assert getter[|getter| - 1] == '}';
        LastOfSuffix(AttributeExtensionAttribute(p), getter);
    }
  }

  /** Without a primary key every property line is the bare declaration and none is marked. */
  lemma NoPrimaryKeyNoMark(style: Style, o: ObjectSchema)
    requires o.primaryKey.None?
    ensures forall i :: 0 <= i < |AllProperties(o)| ==>
      BlockLines(style, o)[i] == Declaration(style, AllProperties(o)[i])
      && !EndsWith(BlockLines(style, o)[i], PrimaryKeyMark)
  {
    forall i | 0 <= i < |AllProperties(o)|
      ensures !EndsWith(BlockLines(style, o)[i], PrimaryKeyMark)
    {
      PrimaryKeyMarkedExactly(style, o, i);
    }
  }

  /** When the properties are distinct and the primary key is the `k`-th, only line `k` is marked. */
  lemma OnlyPrimaryKeyLineMarked(style: Style, o: ObjectSchema, k: nat)
    requires k < |AllProperties(o)|
    requires forall i, j :: 0 <= i < j < |AllProperties(o)| ==> AllProperties(o)[i] != AllProperties(o)[j]
    requires o.primaryKey == Some(AllProperties(o)[k])
    ensures forall i :: 0 <= i < |AllProperties(o)| ==>
      (EndsWith(BlockLines(style, o)[i], PrimaryKeyMark) <==> i == k)
  {
    forall i | 0 <= i < |AllProperties(o)|
      ensures EndsWith(BlockLines(style, o)[i], PrimaryKeyMark) <==> i == k
    {
      PrimaryKeyMarkedExactly(style, o, i);
    }
  }

  /** Reads one block line: the accessor it declares and whether it is marked as primary key. */
  function ParseLine(style: Style, line: string): Option<(Accessor, bool)> {
    var (bare, marked) := StripMark(line);
    match ParseDeclaration(style, bare)
    case None => None
    case Some(a) => Some((a, marked))
  }

  /** Reads every line, failing if any line is not an accessor line. */
  function DecodeLines(style: Style, lines: seq<string>): Option<seq<(Accessor, bool)>> {
    AllSome(seq(|lines|, i requires 0 <= i < |lines| => ParseLine(style, lines[i])))
  }

  /** Reads a block's text: accessor lines, then an empty line and the closing brace. */
  function DecodeBlock(style: Style, text: string): Option<seq<(Accessor, bool)>> {
    var lines := Split(text, '\n');
    if |lines| < 2 || lines[|lines| - 2] != "" || lines[|lines| - 1] != "}" then None
    else DecodeLines(style, lines[..|lines| - 2])
  }

  /** What a block should declare: each property's accessor and whether it is `primaryKey`. */
  function Described(props: seq<Property>, primaryKey: Option<Property>): (r: seq<(Accessor, bool)>)
    ensures |r| == |props|
    ensures forall i :: 0 <= i < |props| ==> r[i] == (AccessorOf(props[i]), primaryKey == Some(props[i]))
  {
    if |props| == 0 then []
    else [(AccessorOf(props[0]), primaryKey == Some(props[0]))] + Described(props[1..], primaryKey)
  }

  /**
   A property's line, marked or not, reads back as its accessor and the mark,
   whatever the related class name, once the name does not hold the character the
   reader ends it at.
   */
  lemma ParseLineOf(style: Style, p: Property, marked: bool)
    requires NameEnd(style) !in p.name
    ensures ParseLine(style, Annotate(Declaration(style, p), marked)) == Some((AccessorOf(p), marked))
  {
    DeclarationEndsUnmarked(style, p);
    MarkRoundTrip(Declaration(style, p), marked);
    assert ParseDeclaration(style, Declaration(style, p)) == Some(AccessorOf(p));
  }

  /** Lines that each read back as the matching entry of `expected` decode to exactly `expected`. */
  lemma DecodeEachLine(style: Style, lines: seq<string>, expected: seq<(Accessor, bool)>)
    requires |lines| == |expected|
    requires forall i :: 0 <= i < |lines| ==> ParseLine(style, lines[i]) == Some(expected[i])
    ensures DecodeLines(style, lines) == Some(expected)
  {
    var parsed := seq(|lines|, i requires 0 <= i < |lines| => ParseLine(style, lines[i]));
    var r := AllSome(parsed);
    assert forall i :: 0 <= i < |lines| ==> parsed[i] == Some(expected[i]);
    assert r.value == expected;
  }

  /** Property lines whose names the reader recovers decode to what they describe. */
  lemma DecodePropertyLines(style: Style, props: seq<Property>, primaryKey: Option<Property>)
    requires forall i :: 0 <= i < |props| ==> NameEnd(style) !in props[i].name
    ensures DecodeLines(style, PropertyLines(style, props, primaryKey)) == Some(Described(props, primaryKey))
  {
    var lines := PropertyLines(style, props, primaryKey);
    var expected := Described(props, primaryKey);
    forall i | 0 <= i < |lines|
      ensures ParseLine(style, lines[i]) == Some(expected[i])
    {
      ParseLineOf(style, props[i], primaryKey == Some(props[i]));
    }
    DecodeEachLine(style, lines, expected);
  }

  /** When no rendered property's names hold a line break, neither does any line of the block. */
  lemma BlockLinesAreSingleLines(style: Style, o: ObjectSchema)
    requires forall i :: 0 <= i < |AllProperties(o)| ==> SingleLineProperty(AllProperties(o)[i])
    ensures FreeOf(BlockLines(style, o), '\n')
  {
    var lines := BlockLines(style, o);
    forall i | 0 <= i < |lines|
      ensures '\n' !in lines[i]
    {
      var props := AllProperties(o);
      if i < |props| {
        DeclarationsAreSingleLines(props[i]);
        AnnotateSingleLine(Declaration(style, props[i]), IsPrimaryKey(o, props[i]));
      } else if i == |props| {
        assert lines[i] == "";
      } else {
        assert lines[i] == "}";
      }
    }
  }

  /** A block's text splits back into exactly its lines. */
  lemma BlockSplits(style: Style, o: ObjectSchema)
    requires forall i :: 0 <= i < |AllProperties(o)| ==> SingleLineProperty(AllProperties(o)[i])
    ensures Split(Join(BlockLines(style, o), "\n"), '\n') == BlockLines(style, o)
  {
    BlockLinesAreSingleLines(style, o);
    SplitJoin(BlockLines(style, o), '\n');
  }

  /**
   A block's text reads back as one accessor per property, in order, with the
   primary-key flag set exactly on the primary key.
   */
  lemma DecodeBlockLines(style: Style, o: ObjectSchema)
    requires Decodable(style, o)
    ensures DecodeBlock(style, Join(BlockLines(style, o), "\n")) == Some(Described(AllProperties(o), o.primaryKey))
  {
    var lines := BlockLines(style, o);
    BlockSplits(style, o);
    assert lines[..|lines| - 2] == PropertyLines(style, AllProperties(o), o.primaryKey);
    DecodePropertyLines(style, AllProperties(o), o.primaryKey);
  }
}
