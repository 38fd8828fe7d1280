/**
 Assembly of one generated Swift file: the header comment, the imports, the
 object extension with its static block, the protocol extension with its
 instance block, and, when the class has a primary key, the unique-identifiable
 extension, separated by blank lines.
 */
module Generator {
  import opened Wrappers
  import opened Strings
  import opened Schema
  import TypeMapper
  import Blocks

  // The fixed text of the generated lines. Each piece is a `Line`, so none holds a
  // line break, and that is checked once per constant. The verifier checks a
  // string literal's type character by character, which is cheap only for short
  // literals, so the longer sentences are kept in pieces; their concatenations
  // spell out the source's lines unchanged.
  const Comment: Line := "//"
  const CommentLead: Line := "//  "
  const GeneratedSuffix: Line := ".generated.swift"
  const GeneratedBy: Line := "//  This code was generated by"
  const GeneratorTool: Line := " the QueryGenie code generator"
  const ToolEnd: Line := " tool."
  const ChangesMay: Line := "//  Changes to this file may"
  const IncorrectBehavior: Line := " cause incorrect behavior and"
  const WillBeLost: Line := " will be lost if"
  const Regenerated: Line := "//  the code is regenerated."

  /** The header comment naming the generated file and warning against hand edits. */
  function HeaderLines(o: ObjectSchema): seq<string> {
    [ Comment,
      CommentLead + o.className + GeneratedSuffix,
      Comment,
      GeneratedBy + GeneratorTool + ToolEnd,
      Comment,
      ChangesMay + IncorrectBehavior + WillBeLost,
      Regenerated,
      Comment ]
  }

  /**
   Models `header(for:)`: eight comment lines, the second naming the generated
   file `<class>.generated.swift`.
   */
  function Header(o: ObjectSchema): (r: string)
    ensures '\n' !in o.className ==> |Split(r, '\n')| == 8
    ensures '\n' !in o.className ==> Split(r, '\n')[1] == CommentLead + o.className + GeneratedSuffix
  {
    if '\n' in o.className then Join(HeaderLines(o), "\n")
    else
      HeaderSingleLines(o);
      SplitJoin(HeaderLines(o), '\n');
      Join(HeaderLines(o), "\n")
  }

  /** The modules every generated file imports; the same for every class. */
  const ImportLines: seq<Line> := ["import Foundation", "", "import RealmSwift", "import QueryGenie"]

  /** Models `importStatements`. */
  const ImportStatements: string := Join(ImportLines, "\n")

  /** Opens each extension's section comment. */
  const Mark: Line := "// MARK: - "
  const ExtensionKeyword: Line := "extension "
  const OpenBrace: Line := " {"
  const QueryAttributes: Line := " Query Attributes"
  const ProtocolExtensions: Line := "AttributeProtocol Extensions - "
  const AttributeProtocol: Line := "QueryGenie.AttributeProtocol"
  const ValueTypeConstraint: Line := " where Self.ValueType: "
  const UniqueIdentifiableTitle: Line := "UniqueIdentifiable - "
  const UniqueIdentifiableConformance: Line := ": UniqueIdentifiable {"

  function ObjectExtensionHeaderLines(o: ObjectSchema): seq<string> {
    [Mark + o.className + QueryAttributes, "", ExtensionKeyword + o.className + OpenBrace]
  }

  /** Models `objectExtensionHeader(for:)`: its third line opens the extension of the class itself. */
  function ObjectExtensionHeader(o: ObjectSchema): (r: string)
    ensures '\n' !in o.className ==> |Split(r, '\n')| == 3
    ensures '\n' !in o.className ==> ExtendedType(Split(r, '\n')[2]) == Some(o.className)
  {
    if '\n' in o.className then Join(ObjectExtensionHeaderLines(o), "\n")
    else
      ObjectExtensionHeaderSingleLines(o);
      SplitJoin(ObjectExtensionHeaderLines(o), '\n');
      ExtensionHeadersNameClass(o);
      Join(ObjectExtensionHeaderLines(o), "\n")
  }

  function AttributeExtensionHeaderLines(o: ObjectSchema): seq<string> {
    [ Mark + ProtocolExtensions + o.className,
      "",
      ExtensionKeyword + AttributeProtocol + ValueTypeConstraint + o.className + OpenBrace ]
  }

  /**
   Models `attributeExtensionHeader(for:)`: its third line opens the protocol
   extension whose value type is constrained to the class.
   */
  function AttributeExtensionHeader(o: ObjectSchema): (r: string)
    ensures '\n' !in o.className ==> |Split(r, '\n')| == 3
    ensures '\n' !in o.className ==> ConstrainedValueType(Split(r, '\n')[2]) == Some(o.className)
  {
    if '\n' in o.className then Join(AttributeExtensionHeaderLines(o), "\n")
    else
      AttributeExtensionHeaderSingleLines(o);
      SplitJoin(AttributeExtensionHeaderLines(o), '\n');
      ExtensionHeadersNameClass(o);
      Join(AttributeExtensionHeaderLines(o), "\n")
  }

  /** The text between `lead` and `trail` when `line` starts with `lead` and ends with `trail`. */
  function Between(line: string, lead: string, trail: string): Option<string> {
    if |lead| + |trail| <= |line| && StartsWith(line, lead) && EndsWith(line, trail) then
      Some(line[|lead|..|line| - |trail|])
    else None
  }

  /** Reads the type an `extension <type> {` line extends. */
  function ExtendedType(line: string): Option<string> {
    Between(line, ExtensionKeyword, OpenBrace)
  }

  /** Reads the value type a protocol-extension line constrains `Self.ValueType` to. */
  function ConstrainedValueType(line: string): Option<string> {
    Between(line, ExtensionKeyword + AttributeProtocol + ValueTypeConstraint, OpenBrace)
  }

  lemma BetweenOf(lead: string, middle: string, trail: string)
    ensures Between(lead + middle + trail, lead, trail) == Some(middle)
  {
    var line := lead + middle + trail;
    assert line[..|lead|] == lead;
    assert line[|line| - |trail|..] == trail;
    assert line[|lead|..|line| - |trail|] == middle;
  }

  /**
   Both extension headers are about the class: the object extension extends the
   class itself, and the protocol extension constrains the attribute value type to it.
   */
  lemma ExtensionHeadersNameClass(o: ObjectSchema)
    ensures ExtendedType(ObjectExtensionHeaderLines(o)[2]) == Some(o.className)
    ensures ConstrainedValueType(AttributeExtensionHeaderLines(o)[2]) == Some(o.className)
  {
    BetweenOf(ExtensionKeyword, o.className, OpenBrace);
    BetweenOf(ExtensionKeyword + AttributeProtocol + ValueTypeConstraint, o.className, OpenBrace);
  }

  /** The alias line's fixed start, in two pieces for the same reason as the header's sentences. */
  const TypeAliasLead: Line := "   public typealias " + "UniqueIdentifierType = "

  /** The declaration of the unique-identifier type alias for primary key `key`. */
  function TypeAliasLine(key: Property): string {
    TypeAliasLead + TypeMapper.ValueType(key)
  }

  function UniqueIdentifiableLines(className: string, key: Property): seq<string> {
    [ Mark + UniqueIdentifiableTitle + className,
      "",
      ExtensionKeyword + className + UniqueIdentifiableConformance,
      "",
      TypeAliasLine(key),
      "",
      "}" ]
  }

  /**
   Models `uniqueIdentifiableExtension(for:)`: present exactly when the class has
   a primary key, and then aliasing the identifier type to the key's value type.
   */
  function UniqueIdentifiableExtension(o: ObjectSchema): (r: Option<string>)
    ensures r.Some? <==> o.primaryKey.Some?
  {
    match o.primaryKey
    case None => None
    case Some(key) => Some(Join(UniqueIdentifiableLines(o.className, key), "\n"))
  }

  /** The extension's fifth line aliases the identifier type to the primary key's value type. */
  lemma TypeAliasIsPrimaryKeyType(o: ObjectSchema)
    requires o.primaryKey.Some? && '\n' !in o.className && '\n' !in TypeMapper.ValueType(o.primaryKey.value)
    ensures |Split(UniqueIdentifiableExtension(o).value, '\n')| == 7
    ensures Split(UniqueIdentifiableExtension(o).value, '\n')[4]
         == TypeAliasLead + TypeMapper.ValueType(o.primaryKey.value)
  {
    UniqueIdentifiableSplits(o.className, o.primaryKey.value);
  }

  lemma UniqueIdentifiableSingleLines(className: string, key: Property)
    requires '\n' !in className && '\n' !in TypeMapper.ValueType(key)
    ensures FreeOf(UniqueIdentifiableLines(className, key), '\n')
  {
  }

  lemma UniqueIdentifiableSplits(className: string, key: Property)
    requires '\n' !in className && '\n' !in TypeMapper.ValueType(key)
    ensures Split(Join(UniqueIdentifiableLines(className, key), "\n"), '\n') == UniqueIdentifiableLines(className, key)
  {
    UniqueIdentifiableSingleLines(className, key);
    SplitJoin(UniqueIdentifiableLines(className, key), '\n');
  }

  /** The six components every file has, in order. */
  function FixedComponents(o: ObjectSchema): seq<string> {
    [ Header(o),
      ImportStatements,
      ObjectExtensionHeader(o),
      Blocks.ObjectAttributes(o),
      AttributeExtensionHeader(o),
      Blocks.AttributeExtensionAttributes(o) ]
  }

  /** The components of the file: the fixed six, then the unique-identifiable extension if any. */
  function Components(o: ObjectSchema): (r: seq<string>)
    ensures |r| == if o.primaryKey.Some? then 7 else 6
    ensures r[..6] == FixedComponents(o)
    ensures o.primaryKey.Some? ==> r[6] == UniqueIdentifiableExtension(o).value
  {
    match UniqueIdentifiableExtension(o)
    case None => FixedComponents(o)
    case Some(extension) => FixedComponents(o) + [extension]
  }

  /**
   Models `generateFile(for:)`: the components joined with one blank line between
   them, which is all their lines joined by newlines with one empty line between
   components. When no name holds a line break, the file splits back into exactly
   those lines.
   */
  function GenerateFile(o: ObjectSchema): (r: string)
    ensures r == Join(FileLines(o), "\n")
    ensures SingleLineObject(o) ==> Split(r, '\n') == FileLines(o)
  {
    ComponentsAreJoinedSections(o);
    SectionsAreNonEmpty(o);
    JoinSections(SectionsOf(o), "\n");
    assert "\n" + "\n" == "\n\n";
    if SingleLineObject(o) then
      FileLinesAreSingleLines(o);
      SplitJoin(FileLines(o), '\n');
      Join(Components(o), "\n\n")
    else
      Join(Components(o), "\n\n")
  }

  /** A class with a primary key gets its six fixed components followed by the unique-identifiable extension. */
  lemma PrimaryKeyAddsExtension(o: ObjectSchema)
    requires o.primaryKey.Some?
    ensures GenerateFile(o) == Join(FixedComponents(o), "\n\n") + "\n\n" + UniqueIdentifiableExtension(o).value
  {
    assert Components(o) == FixedComponents(o) + [UniqueIdentifiableExtension(o).value];
    JoinSnoc(FixedComponents(o), UniqueIdentifiableExtension(o).value, "\n\n");
  }

  /** A class without a primary key gets exactly the six fixed components. */
  lemma NoPrimaryKeyNoExtension(o: ObjectSchema)
    requires o.primaryKey.None?
    ensures GenerateFile(o) == Join(FixedComponents(o), "\n\n")
  {
  }

  /** The line blocks of the six fixed components. */
  function FixedSections(o: ObjectSchema): seq<seq<string>> {
    [ HeaderLines(o),
      ImportLines,
      ObjectExtensionHeaderLines(o),
      Blocks.BlockLines(Blocks.Static, o),
      AttributeExtensionHeaderLines(o),
      Blocks.BlockLines(Blocks.Instance, o) ]
  }

  /** The line blocks of all components. */
  function SectionsOf(o: ObjectSchema): seq<seq<string>> {
    match o.primaryKey
    case None => FixedSections(o)
    case Some(key) => FixedSections(o) + [UniqueIdentifiableLines(o.className, key)]
  }

  /** Every line of the generated file, in order. */
  function FileLines(o: ObjectSchema): seq<string> {
    Sections(SectionsOf(o))
  }

  // A file's fixed part is six blocks of lines. The four lemmas below take the six
  // blocks one by one, so that each proof about the fixed part only sees six
  // opaque sequences instead of the unfolded header, imports and accessor lines.

  /** Six blocks as sections: the blocks in order with one empty line between neighbours. */
  lemma SectionsOfSix(a: seq<string>, b: seq<string>, c: seq<string>, d: seq<string>, e: seq<string>, f: seq<string>)
    ensures Sections([a, b, c, d, e, f]) == a + [""] + b + [""] + c + [""] + d + [""] + e + [""] + f
  {
    assert Sections([a]) == a;
    SectionsSnoc([a], b);
    assert [a] + [b] == [a, b];
    SectionsSnoc([a, b], c);
    assert [a, b] + [c] == [a, b, c];
    SectionsSnoc([a, b, c], d);
    assert [a, b, c] + [d] == [a, b, c, d];
    SectionsSnoc([a, b, c, d], e);
    assert [a, b, c, d] + [e] == [a, b, c, d, e];
    SectionsSnoc([a, b, c, d, e], f);
    assert [a, b, c, d, e] + [f] == [a, b, c, d, e, f];
  }

  /** Joining each of six blocks gives the six joins, in order. */
  lemma JoinEachOfSix(a: seq<string>, b: seq<string>, c: seq<string>, d: seq<string>, e: seq<string>, f: seq<string>,
                      sep: string)
    ensures JoinEach([a, b, c, d, e, f], sep)
         == [Join(a, sep), Join(b, sep), Join(c, sep), Join(d, sep), Join(e, sep), Join(f, sep)]
  {
    var blocks := [a, b, c, d, e, f];
    var r := JoinEach(blocks, sep);
    assert r[0] == Join(blocks[0], sep) && r[1] == Join(blocks[1], sep) && r[2] == Join(blocks[2], sep);
    assert r[3] == Join(blocks[3], sep) && r[4] == Join(blocks[4], sep) && r[5] == Join(blocks[5], sep);
  }

  /** Six blocks free of `c` form a run of blocks free of `c`. */
  lemma FreeOfSix(a: seq<string>, b: seq<string>, c: seq<string>, d: seq<string>, e: seq<string>, f: seq<string>,
                  ch: char)
    requires FreeOf(a, ch) && FreeOf(b, ch) && FreeOf(c, ch) && FreeOf(d, ch) && FreeOf(e, ch) && FreeOf(f, ch)
    ensures BlocksFreeOf([a, b, c, d, e, f], ch)
  {
  }

  /** Six non-empty blocks form a run of non-empty blocks. */
  lemma NonEmptySix(a: seq<string>, b: seq<string>, c: seq<string>, d: seq<string>, e: seq<string>, f: seq<string>)
    requires |a| > 0 && |b| > 0 && |c| > 0 && |d| > 0 && |e| > 0 && |f| > 0
    ensures NonEmptyBlocks([a, b, c, d, e, f])
  {
  }

  lemma FixedComponentsAreJoinedSections(o: ObjectSchema)
    ensures FixedComponents(o) == JoinEach(FixedSections(o), "\n")
  {
    JoinEachOfSix(HeaderLines(o), ImportLines, ObjectExtensionHeaderLines(o), Blocks.BlockLines(Blocks.Static, o),
                  AttributeExtensionHeaderLines(o), Blocks.BlockLines(Blocks.Instance, o), "\n");
  }

  lemma ComponentsAreJoinedSections(o: ObjectSchema)
    ensures Components(o) == JoinEach(SectionsOf(o), "\n")
  {
    FixedComponentsAreJoinedSections(o);
    if o.primaryKey.Some? {
      JoinEachSnoc(FixedSections(o), UniqueIdentifiableLines(o.className, o.primaryKey.value), "\n");
    }
  }

  lemma SectionsAreNonEmpty(o: ObjectSchema)
    ensures NonEmptyBlocks(SectionsOf(o))
  {
    NonEmptySix(HeaderLines(o), ImportLines, ObjectExtensionHeaderLines(o), Blocks.BlockLines(Blocks.Static, o),
                AttributeExtensionHeaderLines(o), Blocks.BlockLines(Blocks.Instance, o));
    if o.primaryKey.Some? {
      NonEmptySnoc(FixedSections(o), UniqueIdentifiableLines(o.className, o.primaryKey.value));
    }
  }

  /** The six fixed components' lines, with one empty line after each but the last. */
  lemma FixedSectionLines(o: ObjectSchema)
    ensures Sections(FixedSections(o))
         == HeaderLines(o) + [""] + ImportLines + [""] + ObjectExtensionHeaderLines(o) + [""]
            + Blocks.BlockLines(Blocks.Static, o) + [""] + AttributeExtensionHeaderLines(o) + [""]
            + Blocks.BlockLines(Blocks.Instance, o)
  {
    SectionsOfSix(HeaderLines(o), ImportLines, ObjectExtensionHeaderLines(o), Blocks.BlockLines(Blocks.Static, o),
                  AttributeExtensionHeaderLines(o), Blocks.BlockLines(Blocks.Instance, o));
  }

  /**
   Without a primary key the file's lines are the six fixed components'; with one,
   an empty line and the unique-identifiable extension's seven lines follow them.
   */
  lemma FileLinesShape(o: ObjectSchema)
    ensures o.primaryKey.None? ==> FileLines(o) == Sections(FixedSections(o))
    ensures o.primaryKey.Some? ==>
      FileLines(o) == Sections(FixedSections(o)) + [""] + UniqueIdentifiableLines(o.className, o.primaryKey.value)
  {
    if o.primaryKey.Some? {
      SectionsSnoc(FixedSections(o), UniqueIdentifiableLines(o.className, o.primaryKey.value));
    }
  }

  /**
   The file has two lines per rendered property plus 27 fixed lines, and eight
   more (a separator and the seven-line extension) when there is a primary key.
   */
  lemma FileLineCount(o: ObjectSchema)
    ensures |FileLines(o)| == 2 * |AllProperties(o)| + (if o.primaryKey.Some? then 35 else 27)
  {
    FixedSectionLines(o);
    FileLinesShape(o);
  }

  /** The file opens with the header, whose second line names it `<class>.generated.swift`. */
  lemma HeaderNamesFile(o: ObjectSchema)
    ensures |FileLines(o)| > 1
    ensures FileLines(o)[1] == CommentLead + o.className + GeneratedSuffix
  {
    FileLinesShape(o);
    var fixed := Sections(FixedSections(o));
    SectionsStartWithFirst(FixedSections(o));
    assert fixed[1] == fixed[..|HeaderLines(o)|][1];
    if o.primaryKey.Some? {
      var lines := fixed + [""] + UniqueIdentifiableLines(o.className, o.primaryKey.value);
      assert lines[1] == fixed[1];
    }
  }

  /** With a primary key, the third line from the end aliases the identifier type to the key's value type. */
  lemma FileAliasesPrimaryKeyType(o: ObjectSchema)
    requires o.primaryKey.Some?
    ensures FileLines(o)[|FileLines(o)| - 3] == TypeAliasLine(o.primaryKey.value)
  {
    FileLinesShape(o);
  }

  /** Without a primary key, the file ends with the instance block: no extension follows it. */
  lemma NoPrimaryKeyEndsWithInstanceBlock(o: ObjectSchema)
    requires o.primaryKey.None?
    ensures |FileLines(o)| >= |Blocks.BlockLines(Blocks.Instance, o)|
    ensures FileLines(o)[|FileLines(o)| - |Blocks.BlockLines(Blocks.Instance, o)|..]
         == Blocks.BlockLines(Blocks.Instance, o)
  {
    FileLinesShape(o);
    SectionsEndWithLast(FixedSections(o));
  }

  lemma HeaderSingleLines(o: ObjectSchema)
    requires '\n' !in o.className
    ensures FreeOf(HeaderLines(o), '\n')
  {
  }

  lemma ObjectExtensionHeaderSingleLines(o: ObjectSchema)
    requires '\n' !in o.className
    ensures FreeOf(ObjectExtensionHeaderLines(o), '\n')
  {
  }

  lemma AttributeExtensionHeaderSingleLines(o: ObjectSchema)
    requires '\n' !in o.className
    ensures FreeOf(AttributeExtensionHeaderLines(o), '\n')
  {
  }

  lemma FixedSectionsAreSingleLines(o: ObjectSchema)
    requires '\n' !in o.className
    requires FreeOf(Blocks.BlockLines(Blocks.Static, o), '\n')
    requires FreeOf(Blocks.BlockLines(Blocks.Instance, o), '\n')
    ensures BlocksFreeOf(FixedSections(o), '\n')
  {
    HeaderSingleLines(o);
    ImportSingleLines();
    ObjectExtensionHeaderSingleLines(o);
    AttributeExtensionHeaderSingleLines(o);
    FreeOfSix(HeaderLines(o), ImportLines, ObjectExtensionHeaderLines(o), Blocks.BlockLines(Blocks.Static, o),
              AttributeExtensionHeaderLines(o), Blocks.BlockLines(Blocks.Instance, o), '\n');
  }

  /** Models `importStatements`: the same four lines, `Foundation`, a blank line, `RealmSwift` and `QueryGenie`, for every class. */
  lemma ImportsAreFourLines()
    ensures |ImportLines| == 4
    ensures Split(ImportStatements, '\n') == ImportLines
    ensures Split(ImportStatements, '\n') == ["import Foundation", "", "import RealmSwift", "import QueryGenie"]
  {
    ImportSingleLines();
    SplitJoin(ImportLines, '\n');
  }

  lemma ImportSingleLines()
    ensures FreeOf(ImportLines, '\n')
  {
  }

  /** When no name holds a line break, no line of the file does. */
  lemma FileLinesAreSingleLines(o: ObjectSchema)
    requires SingleLineObject(o)
    ensures FreeOf(FileLines(o), '\n')
  {
    Blocks.BlockLinesAreSingleLines(Blocks.Static, o);
    Blocks.BlockLinesAreSingleLines(Blocks.Instance, o);
    FixedSectionsAreSingleLines(o);
    if o.primaryKey.Some? {
      var key := o.primaryKey.value;
      UniqueIdentifiableSingleLines(o.className, key);
      FreeOfSnoc(FixedSections(o), UniqueIdentifiableLines(o.className, key), '\n');
    }
    SectionsFreeOf(SectionsOf(o), '\n');
  }

}
