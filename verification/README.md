# RealmGenerator, modelled in Dafny

`RealmGenerator` (QueryGenie) reads a Realm schema and writes one Swift source
file per object class: `<Class>.generated.swift`. Each file holds:

- a header comment and the imports;
- an extension of the class with one static `QueryGenie.Attribute` accessor per property;
- an extension of `QueryGenie.AttributeProtocol` constrained to the class, with one instance accessor per property;
- when the class has a primary key, a `UniqueIdentifiable` conformance whose identifier type is the key's value type.

This project models that text-rendering pipeline as pure functions over
immutable datatypes. It also models the file-name computation and the
remove-then-write loop of `generateAttributeFiles`. The proofs show what the
text means by reading it back: parsers recover each accessor line, each block
and each file's lines from the rendered text.

Modules, in dependency order:

- `Wrappers`: `Option`, and `AllSome`, which collects the values of a sequence of options.
- `Strings`: prefix and suffix tests, Swift's `joined(separator:)` (`Join`), and `Split` with the round trip `Split(Join(ls, "\n"), '\n') == ls` for a non-empty list of lines without a line break. Also `Sections`, which puts one empty line between blocks of lines.
- `Schema`: the eleven property kinds, `Property`, `ObjectSchema` and `allProperties`. `SingleLineObject` says that no class, property or related-class name of the object, the primary key's included, holds a line break.
- `TypeMapper`: `valueType(for:)`, and a reader for the `List<…>` and `LinkingObjects<…>` types it writes.
- `Accessors`: `attribute(for:)` and `attributeExtensionAttribute(for:)`, the `// Primary Key` mark, and readers for both line shapes.
- `Blocks`: `objectAttributes(for:)` and `attributeExtensionAttributes(for:)`, kept as lists of lines before joining. `DecodeBlock` reads a block back.
- `Generator`: the header, the imports, the two extension headers, `uniqueIdentifiableExtension(for:)` and `generateFile(for:)`. `FileLines` gives every line of a file.
- `Emitter`: the output file name and path of each class, the plan of writes, and the write loop. The directory is a map from paths to contents.

## Model

| member | source | states |
|---|---|---|
| TypeMapper.ValueType | QueryGenie/RealmGenerator/RealmGenerator.swift:107-121 | The type is total over all eleven kinds. It is non-empty unless a to-one link names the empty class. A line break in it can only come from a relationship's related class name. |
| TypeMapper.ValueTypeParses | QueryGenie/RealmGenerator/RealmGenerator.swift:116-119 | An array type reads back as a `List` of the related class, with `Any` when the class is absent. A linking-objects type reads back as a `LinkingObjects` of that class. A to-one link whose class has no `<` reads back as that class itself. A primitive reads back as a plain name. |
| TypeMapper.PrimitiveIgnoresRelatedClass | QueryGenie/RealmGenerator/RealmGenerator.swift:108-116 | The type of the eight primitive kinds does not depend on the related class name. |
| TypeMapper.PrimitiveTypesDistinct | QueryGenie/RealmGenerator/RealmGenerator.swift:108-116 | Different primitive kinds get different type names. |
| TypeMapper.MissingRelatedClassIsFallback | QueryGenie/RealmGenerator/RealmGenerator.swift:117-119 | A relationship with no related class is typed exactly as one related to `Any`. It is a fallback, never a failure. |
| Accessors.Attribute | QueryGenie/RealmGenerator/RealmGenerator.swift:101-105 | For a name without a space, the static line reads back as exactly the property's accessor: its name, nullable when optional, and its value type. For any name, the line ends with the name as the string key `("name")`. |
| Accessors.AttributeExtensionAttribute | QueryGenie/RealmGenerator/RealmGenerator.swift:147-152 | For a name without a colon, the instance line reads back as exactly the property's accessor. For any name, its getter ends by passing the name as key together with `self`. |
| Accessors.StaticRoundTrip | QueryGenie/RealmGenerator/RealmGenerator.swift:104 | Any accessor whose name has no space is recovered from its static declaration. |
| Accessors.InstanceRoundTrip | QueryGenie/RealmGenerator/RealmGenerator.swift:150-151 | Any accessor whose name has no colon is recovered from its instance declaration. The getter repeats the same attribute class and key. |
| Accessors.NullableExactlyWhenOptional | QueryGenie/RealmGenerator/RealmGenerator.swift:102 | For every property, whatever its name, both lines write `NullableAttribute<` right after the name and the `QueryGenie.` qualifier if and only if the property is optional, and `Attribute<` there otherwise. |
| Accessors.DeclarationsAreSingleLines | QueryGenie/RealmGenerator/RealmGenerator.swift:101-152 | When the name and the related class name have no line break, both lines are single lines. The static line ends in `)` and the instance line in `}`, never in the last character of the mark. |
| Accessors.MarkRoundTrip | QueryGenie/RealmGenerator/RealmGenerator.swift:89-91 | For a non-empty line not ending in `y` (every declaration is one, by `Blocks.DeclarationEndsUnmarked`), stripping the mark from the annotated line gives back the line and the flag, and the annotated line ends with the mark exactly when it was added. |
| Blocks.DeclarationEndsUnmarked | QueryGenie/RealmGenerator/RealmGenerator.swift:101-105 | Whatever the names, a declaration is non-empty and does not end in `y`, the last character of the mark. So the mark is recognised only where it was added. |
| Blocks.BlockLines | QueryGenie/RealmGenerator/RealmGenerator.swift:84-98 | A block has one line per rendered property plus two. Line `i` is the `i`-th property's declaration, marked exactly when that property is the primary key. The last two lines are empty and `}`. |
| Blocks.PrimaryKeyMarkedExactly | QueryGenie/RealmGenerator/RealmGenerator.swift:88-91 | For any names, a property line ends with ` // Primary Key` if and only if its property is the primary key. Stripping the mark leaves the unchanged declaration. |
| Blocks.NoPrimaryKeyNoMark | QueryGenie/RealmGenerator/RealmGenerator.swift:135-137 | For any names, without a primary key every property line is the bare declaration and none carries the mark. |
| Blocks.OnlyPrimaryKeyLineMarked | QueryGenie/RealmGenerator/RealmGenerator.swift:133-138 | For any names, when the properties are distinct and the key is the `k`-th, exactly line `k` carries the mark. |
| Blocks.ParseLineOf | QueryGenie/RealmGenerator/RealmGenerator.swift:87-92 | A property's line, marked or not, reads back as its accessor and its mark when the name has no space (static line) or no colon (instance line). The related class name may be anything. |
| Blocks.DecodePropertyLines | QueryGenie/RealmGenerator/RealmGenerator.swift:87-93 | When no name has a space (static) or colon (instance), the property lines decode to one accessor per property, in input order, with the primary-key flags. |
| Blocks.BlockSplits | QueryGenie/RealmGenerator/RealmGenerator.swift:98 | When no rendered property's name or related class name has a line break, the joined block splits at line breaks into exactly its lines. |
| Blocks.ObjectAttributes | QueryGenie/RealmGenerator/RealmGenerator.swift:84-99 | When no rendered property's names have a line break and no property name has a space, the static block's text decodes to one accessor per property, in order, with the primary-key flag set exactly on the primary key. |
| Blocks.AttributeExtensionAttributes | QueryGenie/RealmGenerator/RealmGenerator.swift:130-145 | When no rendered property's names have a line break and no property name has a colon, the instance block's text decodes to one instance accessor per property, in order, with the primary-key flag set exactly on the primary key. |
| Schema.AllProperties | QueryGenie/RealmGenerator/RealmGenerator.swift:171-174 | The rendered properties are the stored ones, in order, followed by the computed ones, in order. A property is rendered if and only if it is stored or computed. |
| Generator.Header | QueryGenie/RealmGenerator/RealmGenerator.swift:58-67 | When the class name has no line break, the header has eight lines. The second names the file `<Class>.generated.swift`. |
| Generator.ImportsAreFourLines | QueryGenie/RealmGenerator/RealmGenerator.swift:69-75 | The imports are the same four lines for every class: `import Foundation`, an empty line, `import RealmSwift` and `import QueryGenie`. |
| Generator.ExtensionHeadersNameClass | QueryGenie/RealmGenerator/RealmGenerator.swift:77-82 | The object extension header extends the class itself. The protocol extension header (lines 123-128) constrains `Self.ValueType` to the class. |
| Generator.ObjectExtensionHeader | QueryGenie/RealmGenerator/RealmGenerator.swift:77-82 | When the class name has no line break, the header has three lines. The third extends the class itself. |
| Generator.AttributeExtensionHeader | QueryGenie/RealmGenerator/RealmGenerator.swift:123-128 | When the class name has no line break, the header has three lines. The third opens the `AttributeProtocol` extension whose `Self.ValueType` is the class. |
| Generator.UniqueIdentifiableExtension | QueryGenie/RealmGenerator/RealmGenerator.swift:154-155 | The conformance is produced if and only if the class has a primary key. |
| Generator.TypeAliasIsPrimaryKeyType | QueryGenie/RealmGenerator/RealmGenerator.swift:157-164 | When the class name and the key's value type have no line break, the conformance has seven lines. Its fifth aliases `UniqueIdentifierType` to the value type of the primary key. |
| Generator.Components | QueryGenie/RealmGenerator/RealmGenerator.swift:43-53 | A file has seven components with a primary key and six without. The first six are the header, imports, object extension header, static block, protocol extension header and instance block, in that order. The seventh is the conformance. |
| Generator.PrimaryKeyAddsExtension | QueryGenie/RealmGenerator/RealmGenerator.swift:50-55 | With a primary key, the file is the six fixed components followed by a blank line and the conformance. |
| Generator.NoPrimaryKeyNoExtension | QueryGenie/RealmGenerator/RealmGenerator.swift:50-55 | Without a primary key, the file is exactly the six fixed components joined. |
| Generator.GenerateFile | QueryGenie/RealmGenerator/RealmGenerator.swift:42-56 | For every object, joining the components with a blank line gives all their lines joined by line breaks, with one empty line between components. When no name holds a line break, the file's text splits back at line breaks into exactly those lines. |
| Generator.FileLineCount | QueryGenie/RealmGenerator/RealmGenerator.swift:42-56 | `FileLines` has `2n + 27` lines for `n` rendered properties, and `2n + 35` with a primary key. When no name holds a line break, the file's text has exactly that many lines, by `GenerateFile`. |
| Generator.HeaderNamesFile | QueryGenie/RealmGenerator/RealmGenerator.swift:58-60 | The file's second line is the header comment naming `<Class>.generated.swift`. |
| Generator.FileAliasesPrimaryKeyType | QueryGenie/RealmGenerator/RealmGenerator.swift:162 | With a primary key, the third line from the end declares the identifier type alias of the key. |
| Generator.NoPrimaryKeyEndsWithInstanceBlock | QueryGenie/RealmGenerator/RealmGenerator.swift:50-55 | Without a primary key, the file ends with the instance block. |
| Emitter.FileName | QueryGenie/RealmGenerator/RealmGenerator.swift:25-28 | Appending the `generated` and then the `swift` extension gives the class name followed by `.generated.swift`, the suffix the header spells out. |
| Emitter.FileNameInjective | QueryGenie/RealmGenerator/RealmGenerator.swift:25-28 | Different class names give different file names. |
| Emitter.HeaderNamesOutputFile | QueryGenie/RealmGenerator/RealmGenerator.swift:25-28 | The header's file-name line (line 60) names the very file the class is written to. |
| Emitter.Plan | QueryGenie/RealmGenerator/RealmGenerator.swift:23-28 | A run plans one write per class, in schema order, to the class's output path, with that class's generated file as contents. |
| Emitter.PlanPathsDistinct | QueryGenie/RealmGenerator/RealmGenerator.swift:23-28 | Classes with distinct names are written to distinct paths. |
| Emitter.Emit | QueryGenie/RealmGenerator/RealmGenerator.swift:30-37 | A run fails if and only if some write is to a failing path. It then reports one of the planned paths. That path is a failing one, and no file is left at it. |
| Emitter.GenerateAttributeFiles | QueryGenie/RealmGenerator/RealmGenerator.swift:23-38 | A run fails if and only if some class's output path fails. It then reports the output path of one of the classes, and no file is left there. |
| Emitter.EmitWritesAll | QueryGenie/RealmGenerator/RealmGenerator.swift:23-38 | When the writes go to distinct paths (which `PlanPathsDistinct` gives for distinct class names) and none fails, every planned file holds its new contents. Every other file, stale output included, is unchanged. |
| Emitter.EmitStopsAtFirstFailure | QueryGenie/RealmGenerator/RealmGenerator.swift:30-37 | When the writes go to distinct paths, the first failing write ends the run and reports its path. Earlier files are written, the failing path's old file is gone, and nothing else changes. |
| Emitter.EmitIdempotent | QueryGenie/RealmGenerator/RealmGenerator.swift:30-34 | When the writes go to distinct paths and none fails, repeating the sequence of remove-then-write steps changes nothing. |
| Emitter.GenerateTwiceSameFiles | QueryGenie/RealmGenerator/RealmGenerator.swift:16-40 | When the class names are distinct and no output path fails, running the generator twice on the same schema gives the same outcome and files as running it once. |

## Left out

- Directory creation (lines 19-21) is left out: the model starts with the destination present. The source checks and creates the directory at `url.absoluteString` (a URL string, not a file path), and a failure there aborts the run.
- The file system is a map from paths to contents. `removeItem` always succeeds on an existing file, and its failure on a missing file is ignored (line 30). A failing atomic write leaves no file and ends the run (lines 32-37). Which paths fail is an input, `failing`. Permissions, disk errors and the thrown error value are not modelled.
- A URL is a sequence of path components. `appendingPathExtension` is modelled only as appending `"."` and the extension. Foundation's special cases, such as an empty last component, are not modelled.
- Realm's schema introspection and the key-value lookup of `computedProperties` (line 172) are foreign runtime reflection. The computed properties are an explicit input sequence, and an absent value is the empty sequence.
- Primary-key detection uses the Objective-C `isEqual(to:)` (lines 89 and 135). It is modelled as value equality of `Property` values.
- The String encoding (UTF-8) and the text of Swift string interpolation are not modelled: strings are sequences of characters.
- TypeMapper.ValueType: the fallback is written when the related class name is absent (`nil`), following the code. A present but empty name is written as is, so a to-one link with an empty class name gets an empty type.
- Accessors.Attribute: the read-back is stated only for names without a space. The source renders any name, and the reader stops the name at the first space.
- Accessors.AttributeExtensionAttribute: the read-back is stated only for names without a colon, because the reader stops the name at the first colon.
- Blocks.ObjectAttributes: the decoding is stated only when no property name or related class name has a line break and no property name has a space. A line break adds lines, and the reader ends a static line's name at its first space.
- Blocks.AttributeExtensionAttributes: the decoding is stated only when no property name or related class name has a line break and no property name has a colon. A line break adds lines, and the reader ends an instance line's name at its first colon.
- Generator.GenerateFile: the split back into lines is stated only when no name holds a line break, because a line break inside a name adds lines. The join into lines holds for every object.
- Generator.Header: the line structure is stated for class names without a line break, because such a break adds lines.
- Generator.ObjectExtensionHeader: the line structure is stated for class names without a line break, for the same reason.
- Generator.AttributeExtensionHeader: the line structure is stated for class names without a line break, for the same reason.
- Generator.TypeAliasIsPrimaryKeyType: stated when neither the class name nor the key's value type has a line break, for the same reason.
- TypeMapper.ValueTypeParses: a to-one link whose class name holds `<` is excluded, because that type reads back as a generic type.
