/**
 The object schema the generator reads: Realm's property kinds, one property,
 one object class with its stored and computed properties and optional primary key.
 */
module Schema {
  import opened Wrappers

  /** The eleven Realm property kinds the generator distinguishes. */
  datatype Kind =
    | Int | Bool | Float | Double | String | Data | Any | Date
    | Object | Array | LinkingObjects
  {
    /** A kind whose value refers to, or collects, objects of another class. */
    predicate IsRelationship() {
      Object? || Array? || LinkingObjects?
    }
  }

  /** One property: its name, kind, optionality and, for relationships, the related class. */
  datatype Property = Property(name: string, kind: Kind, optional: bool, objectClassName: Option<string>)

  /**
   One object class. `computedProperties` is supplied explicitly; the generator
   reads it from the Realm schema by key-value lookup, defaulting to none.
   */
  datatype ObjectSchema = ObjectSchema(
    className: string,
    properties: seq<Property>,
    computedProperties: seq<Property>,
    primaryKey: Option<Property>)

  /** Every property the generator renders: the stored ones, then the computed ones. */
  function AllProperties(o: ObjectSchema): (r: seq<Property>)
    ensures |r| == |o.properties| + |o.computedProperties|
    ensures r[..|o.properties|] == o.properties
    ensures r[|o.properties|..] == o.computedProperties
    ensures forall p :: p in r <==> p in o.properties || p in o.computedProperties
  {
    o.properties + o.computedProperties
  }

  /**
   `p` is the primary key of `o`. The generator asks the Objective-C runtime
   whether the two property objects are equal; here that is value equality.
   */
  predicate IsPrimaryKey(o: ObjectSchema, p: Property) {
    o.primaryKey == Some(p)
  }

  /** Neither the property's name nor its related class name, if any, holds a line break. */
  predicate SingleLineProperty(p: Property) {
    '\n' !in p.name && (p.objectClassName.Some? ==> '\n' !in p.objectClassName.value)
  }

  /**
   No name the generated file prints holds a line break: not the class name, not
   a rendered property's, not the primary key's.
   */
  predicate SingleLineObject(o: ObjectSchema) {
    && '\n' !in o.className
    && (forall i :: 0 <= i < |AllProperties(o)| ==> SingleLineProperty(AllProperties(o)[i]))
    && (o.primaryKey.Some? ==> SingleLineProperty(o.primaryKey.value))
  }
}
