/**
 One generated accessor line per property: the static declaration of the object
 extension and the instance declaration of the attribute-protocol extension,
 the primary-key mark, and readers that recover what a line declares.
 */
module Accessors {
  import opened Wrappers
  import opened Strings
  import opened Schema
  import TypeMapper

  /** What one accessor line declares: the key it reads, whether it is nullable, its value type. */
  datatype Accessor = Accessor(name: string, nullable: bool, valueType: string)

  /** The accessor a property is rendered as. */
  function AccessorOf(p: Property): Accessor {
    Accessor(p.name, p.optional, TypeMapper.ValueType(p))
  }

  /** The attribute class: nullable for an optional property, plain otherwise. */
  function AttributeType(nullable: bool): string {
    if nullable then "NullableAttribute" else "Attribute"
  }

  const StaticLead := "    public static let "
  const StaticTyped := " = QueryGenie."
  const InstanceLead := "    public var "
  const InstanceTyped := ": QueryGenie."

  /** Appended to the line of the primary-key property. */
  const PrimaryKeyMark := " // Primary Key"

  /** The attribute class followed by the `<` that opens its value type. */
  function OpenType(nullable: bool): string {
    AttributeType(nullable) + "<"
  }

  /** The string-key argument that closes a static declaration. */
  function KeyArgument(name: string): string {
    "(\"" + name + "\")"
  }

  /** The getter arguments, key and `self`, that close an instance declaration. */
  function GetterArguments(name: string): string {
    "(\"" + name + "\", self) }"
  }

  /** What follows the value type in a static declaration. */
  function StaticTail(name: string): string {
    ">" + KeyArgument(name)
  }

  /** What follows the value type in an instance declaration: the getter body. */
  function InstanceTail(name: string, nullable: bool): string {
    "> { return " + (AttributeType(nullable) + GetterArguments(name))
  }

  /** A static, class-level accessor constructed with the name as its string key. */
  function StaticDeclaration(a: Accessor): string {
    StaticLead + (a.name + (StaticTyped + (OpenType(a.nullable) + (a.valueType + StaticTail(a.name)))))
  }

  /** An instance accessor whose getter builds the attribute from the name and `self`. */
  function InstanceDeclaration(a: Accessor): string {
    InstanceLead + (a.name + (InstanceTyped + (OpenType(a.nullable)
      + (a.valueType + InstanceTail(a.name, a.nullable)))))
  }

  /** Reads the attribute class and the opening `<`; yields nullability and what follows. */
  function ParseAttributeType(s: string): Option<(bool, string)> {
    if StartsWith(s, OpenType(true)) then Some((true, s[|OpenType(true)|..]))
    else if StartsWith(s, OpenType(false)) then Some((false, s[|OpenType(false)|..]))
    else None
  }

  /** Reads a static declaration back into the accessor it declares. */
  function ParseStaticDeclaration(line: string): Option<Accessor> {
    if !StartsWith(line, StaticLead) then None
    else
      var rest := line[|StaticLead|..];
      var name := TakeUntil(rest, ' ');
      ParseStaticAfterName(name, rest[|name|..])
  }

  function ParseStaticAfterName(name: string, afterName: string): Option<Accessor> {
    if !StartsWith(afterName, StaticTyped) then None
    else
      match ParseAttributeType(afterName[|StaticTyped|..])
      case None => None
      case Some((nullable, body)) =>
        if !EndsWith(body, StaticTail(name)) then None
        else Some(Accessor(name, nullable, body[..|body| - |StaticTail(name)|]))
  }

  /** Reads an instance declaration back; the getter must repeat the same key and class. */
  function ParseInstanceDeclaration(line: string): Option<Accessor> {
    if !StartsWith(line, InstanceLead) then None
    else
      var rest := line[|InstanceLead|..];
      var name := TakeUntil(rest, ':');
      ParseInstanceAfterName(name, rest[|name|..])
  }

  function ParseInstanceAfterName(name: string, afterName: string): Option<Accessor> {
    if !StartsWith(afterName, InstanceTyped) then None
    else
      match ParseAttributeType(afterName[|InstanceTyped|..])
      case None => None
      case Some((nullable, body)) =>
        if !EndsWith(body, InstanceTail(name, nullable)) then None
        else Some(Accessor(name, nullable, body[..|body| - |InstanceTail(name, nullable)|]))
  }

  lemma ParseAttributeTypeOf(nullable: bool, body: string)
    ensures ParseAttributeType(OpenType(nullable) + body) == Some((nullable, body))
  {
    PrefixOf(OpenType(nullable), body);
    if !nullable {
      assert (OpenType(nullable) + body)[0] == 'A';
    }
  }

  lemma ParseStaticAfterNameOf(a: Accessor)
    ensures ParseStaticAfterName(a.name, StaticTyped + (OpenType(a.nullable) + (a.valueType + StaticTail(a.name))))
         == Some(a)
  {
    var body := a.valueType + StaticTail(a.name);
    PrefixOf(StaticTyped, OpenType(a.nullable) + body);
    ParseAttributeTypeOf(a.nullable, body);
    SuffixOf(a.valueType, StaticTail(a.name));
  }

  lemma ParseInstanceAfterNameOf(a: Accessor)
    ensures ParseInstanceAfterName(a.name,
              InstanceTyped + (OpenType(a.nullable) + (a.valueType + InstanceTail(a.name, a.nullable))))
         == Some(a)
  {
    var body := a.valueType + InstanceTail(a.name, a.nullable);
    PrefixOf(InstanceTyped, OpenType(a.nullable) + body);
    ParseAttributeTypeOf(a.nullable, body);
    SuffixOf(a.valueType, InstanceTail(a.name, a.nullable));
  }

  /** A static declaration reads back as the accessor it was rendered from. */
  lemma StaticRoundTrip(a: Accessor)
    requires ' ' !in a.name
    ensures ParseStaticDeclaration(StaticDeclaration(a)) == Some(a)
  {
    var afterName := StaticTyped + (OpenType(a.nullable) + (a.valueType + StaticTail(a.name)));
    PrefixOf(StaticLead, a.name + afterName);
    TakeUntilExact(a.name, afterName, ' ');
    PrefixOf(a.name, afterName);
    ParseStaticAfterNameOf(a);
  }

  /** An instance declaration reads back as the accessor it was rendered from. */
  lemma InstanceRoundTrip(a: Accessor)
    requires ':' !in a.name
    ensures ParseInstanceDeclaration(InstanceDeclaration(a)) == Some(a)
  {
    var afterName := InstanceTyped + (OpenType(a.nullable) + (a.valueType + InstanceTail(a.name, a.nullable)));
    PrefixOf(InstanceLead, a.name + afterName);
    TakeUntilExact(a.name, afterName, ':');
    PrefixOf(a.name, afterName);
    ParseInstanceAfterNameOf(a);
  }

  /** A static declaration ends with its name as the string key argument. */
  lemma StaticEndsWithKey(a: Accessor)
    ensures EndsWith(StaticDeclaration(a), KeyArgument(a.name))
  {
    var key := KeyArgument(a.name);
    SuffixOf(">", key);
    var s := StaticTail(a.name);
    EndsWithAppend(a.valueType, s, key);
    s := a.valueType + s;
    EndsWithAppend(OpenType(a.nullable), s, key);
    s := OpenType(a.nullable) + s;
    EndsWithAppend(StaticTyped, s, key);
    s := StaticTyped + s;
    EndsWithAppend(a.name, s, key);
    s := a.name + s;
    EndsWithAppend(StaticLead, s, key);
  }

  /** An instance declaration ends with a getter passing its name as key together with `self`. */
  lemma InstanceEndsWithKey(a: Accessor)
    ensures EndsWith(InstanceDeclaration(a), GetterArguments(a.name))
  {
    var key := GetterArguments(a.name);
    SuffixOf(AttributeType(a.nullable), key);
    var s := AttributeType(a.nullable) + key;
    EndsWithAppend("> { return ", s, key);
    s := "> { return " + s;
    EndsWithAppend(a.valueType, s, key);
    s := a.valueType + s;
    EndsWithAppend(OpenType(a.nullable), s, key);
    s := OpenType(a.nullable) + s;
    EndsWithAppend(InstanceTyped, s, key);
    s := InstanceTyped + s;
    EndsWithAppend(a.name, s, key);
    s := a.name + s;
    EndsWithAppend(InstanceLead, s, key);
  }

  /**
   Models `attribute(for:)`: the static accessor line of one property. It ends
   with the property's name as string key, and when the name holds no space the
   line reads back as exactly that property's key, nullability and value type.
   */
  function Attribute(p: Property): (r: string)
    ensures ' ' !in p.name ==> ParseStaticDeclaration(r) == Some(AccessorOf(p))
    ensures EndsWith(r, KeyArgument(p.name))
  {
    var a := AccessorOf(p);
    StaticEndsWithKey(a);
    if ' ' !in p.name then
      StaticRoundTrip(a);
      StaticDeclaration(a)
    else
      StaticDeclaration(a)
  }

  /**
   Models `attributeExtensionAttribute(for:)`: the instance accessor line of one
   property, whose getter passes the property's name as key. When the name holds
   no colon the line reads back as exactly that property's accessor.
   */
  function AttributeExtensionAttribute(p: Property): (r: string)
    ensures ':' !in p.name ==> ParseInstanceDeclaration(r) == Some(AccessorOf(p))
    ensures EndsWith(r, GetterArguments(p.name))
  {
    var a := AccessorOf(p);
    InstanceEndsWithKey(a);
    if ':' !in p.name then
      InstanceRoundTrip(a);
      InstanceDeclaration(a)
    else
      InstanceDeclaration(a)
  }

  /**
   Right after the lead, the name and the qualifier, the nullable attribute class
   is written exactly when `nullable` holds.
   */
  lemma NullableAfter(lead: string, name: string, typed: string, nullable: bool, rest: string)
    ensures StartsWith(lead + (name + (typed + (OpenType(nullable) + rest))), lead + name + typed + OpenType(true))
        <==> nullable
  {
    var front := lead + name + typed;
    var line := lead + (name + (typed + (OpenType(nullable) + rest)));
    assert line == front + (OpenType(nullable) + rest);
    var pre := front + OpenType(true);
    if nullable {
      assert line == pre + rest;
      PrefixOf(pre, rest);
    } else {
      assert line[|front|] == 'A';
      assert pre[|front|] == 'N';
      assert |pre| <= |line| ==> line[..|pre|][|front|] == 'A';
    }
  }

  /** Right after the lead, the name and the qualifier stands the attribute class chosen by `nullable`. */
  lemma AttributeTypeAfter(lead: string, name: string, typed: string, nullable: bool, rest: string)
    ensures StartsWith(lead + (name + (typed + (OpenType(nullable) + rest))), lead + name + typed + OpenType(nullable))
  {
    var line := lead + (name + (typed + (OpenType(nullable) + rest)));
    var pre := lead + name + typed + OpenType(nullable);
    assert line == pre + rest;
    PrefixOf(pre, rest);
  }

  /**
   Whatever the property's name, both lines declare the nullable attribute class
   exactly when the property is optional: right after the name and the
   `QueryGenie.` qualifier stands `NullableAttribute<` for an optional property
   and `Attribute<` otherwise.
   */
  lemma NullableExactlyWhenOptional(p: Property)
    ensures StartsWith(Attribute(p), StaticLead + p.name + StaticTyped + OpenType(p.optional))
    ensures StartsWith(AttributeExtensionAttribute(p), InstanceLead + p.name + InstanceTyped + OpenType(p.optional))
    ensures StartsWith(Attribute(p), StaticLead + p.name + StaticTyped + OpenType(true)) <==> p.optional
    ensures StartsWith(AttributeExtensionAttribute(p), InstanceLead + p.name + InstanceTyped + OpenType(true))
        <==> p.optional
  {
    var a := AccessorOf(p);
    NullableAfter(StaticLead, p.name, StaticTyped, a.nullable, a.valueType + StaticTail(a.name));
    NullableAfter(InstanceLead, p.name, InstanceTyped, a.nullable, a.valueType + InstanceTail(a.name, a.nullable));
    AttributeTypeAfter(StaticLead, p.name, StaticTyped, a.nullable, a.valueType + StaticTail(a.name));
    AttributeTypeAfter(InstanceLead, p.name, InstanceTyped, a.nullable, a.valueType + InstanceTail(a.name, a.nullable));
  }

  /** A static declaration is one line ending in the `)` of its key argument. */
  lemma StaticSingleLine(a: Accessor)
    requires '\n' !in a.name && '\n' !in a.valueType
    ensures '\n' !in StaticDeclaration(a)
    ensures |StaticDeclaration(a)| > 0 && StaticDeclaration(a)[|StaticDeclaration(a)| - 1] == ')'
  {
    assert '\n' !in StaticLead && '\n' !in StaticTyped && '\n' !in OpenType(a.nullable);
    assert '\n' !in StaticTail(a.name);
    var key := KeyArgument(a.name);
    assert key[|key| - 1] == ')';
    StaticEndsWithKey(a);
    LastOfSuffix(StaticDeclaration(a), key);
  }

  /** An instance declaration is one line ending in the `}` of its getter. */
  lemma InstanceSingleLine(a: Accessor)
    requires '\n' !in a.name && '\n' !in a.valueType
    ensures '\n' !in InstanceDeclaration(a)
    ensures |InstanceDeclaration(a)| > 0 && InstanceDeclaration(a)[|InstanceDeclaration(a)| - 1] == '}'
  {
    assert '\n' !in InstanceLead && '\n' !in InstanceTyped && '\n' !in OpenType(a.nullable);
    assert '\n' !in InstanceTail(a.name, a.nullable);
    var getter := GetterArguments(a.name);
    assert getter[|getter| - 1] == '}';
    InstanceEndsWithKey(a);
    LastOfSuffix(InstanceDeclaration(a), getter);
  }

  /**
   When neither the name nor the related class name holds a line break, both
   lines of a property are single lines; the static one ends in `)` and the
   instance one in `}`.
   */
  lemma DeclarationsAreSingleLines(p: Property)
    requires '\n' !in p.name && (p.objectClassName.Some? ==> '\n' !in p.objectClassName.value)
    ensures '\n' !in Attribute(p) && '\n' !in AttributeExtensionAttribute(p)
    ensures |Attribute(p)| > 0 && Attribute(p)[|Attribute(p)| - 1] == ')'
    ensures |AttributeExtensionAttribute(p)| > 0
    ensures AttributeExtensionAttribute(p)[|AttributeExtensionAttribute(p)| - 1] == '}'
  {
    var a := AccessorOf(p);
    assert '\n' !in a.valueType;
    StaticSingleLine(a);
    InstanceSingleLine(a);
    assert Attribute(p) == StaticDeclaration(a);
    assert AttributeExtensionAttribute(p) == InstanceDeclaration(a);
  }

  /** Appends the primary-key mark when `isPrimaryKey` holds; leaves the line alone otherwise. */
  function Annotate(line: string, isPrimaryKey: bool): string {
    if isPrimaryKey then line + PrimaryKeyMark else line
  }

  /** Splits a possibly marked line into the bare line and whether it was marked. */
  function StripMark(line: string): (string, bool) {
    if EndsWith(line, PrimaryKeyMark) then (line[..|line| - |PrimaryKeyMark|], true)
    else (line, false)
  }

  /** Marking a single line keeps it a single line. */
  lemma AnnotateSingleLine(line: string, isPrimaryKey: bool)
    requires '\n' !in line
    ensures '\n' !in Annotate(line, isPrimaryKey)
  {
    assert '\n' !in PrimaryKeyMark;
  }

  /**
   A line that does not itself end like the mark is recovered, with its flag,
   from its annotated form: so the mark is present exactly when it was added.
   */
  lemma MarkRoundTrip(line: string, isPrimaryKey: bool)
    requires |line| > 0 && line[|line| - 1] != 'y'
    ensures StripMark(Annotate(line, isPrimaryKey)) == (line, isPrimaryKey)
    ensures EndsWith(Annotate(line, isPrimaryKey), PrimaryKeyMark) <==> isPrimaryKey
  {
    if isPrimaryKey {
      var s := line + PrimaryKeyMark;
      assert s[..|s| - |PrimaryKeyMark|] == line;
    }
  }
}
