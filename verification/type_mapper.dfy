/**
 The mapping from a property's kind to the Swift type name written into the
 generated accessors, and a reader that recovers the structure of such a name.
 */
module TypeMapper {
  import opened Wrappers
  import opened Strings
  import opened Schema

  /** Written for a relationship whose related class name is absent. */
  const Fallback := "Any"

  /**
   The Swift value type of a property's accessor. Total: a relationship without
   a related class name is typed with the fallback instead of failing.
   */
  function ValueType(p: Property): (r: string)
    ensures |r| > 0 || (p.kind.Object? && p.objectClassName == Some(""))
    ensures '\n' in r ==> p.kind.IsRelationship() && p.objectClassName.Some? && '\n' in p.objectClassName.value
  {
    match p.kind
    case Int => "Int"
    case Bool => "Bool"
    case Float => "Float"
    case Double => "Double"
    case String => "String"
    case Data => "Data"
    case Any => "Any"
    case Date => "Date"
    case Object => p.objectClassName.GetOr(Fallback)
    case Array => "List<" + p.objectClassName.GetOr(Fallback) + ">"
    case LinkingObjects => "LinkingObjects<" + p.objectClassName.GetOr(Fallback) + ">"
  }

  /** The shape of a rendered value type: a plain name, or a generic collection of one class. */
  datatype SwiftType = Named(name: string) | Generic(container: string, element: string)

  /** Reads a rendered value type back: `List<E>` and `LinkingObjects<E>` are collections of `E`. */
  function ParseType(s: string): SwiftType {
    if StartsWith(s, "List<") && EndsWith(s, ">") && |s| > |"List<"| then
      Generic("List", s[|"List<"|..|s| - 1])
    else if StartsWith(s, "LinkingObjects<") && EndsWith(s, ">") && |s| > |"LinkingObjects<"| then
      Generic("LinkingObjects", s[|"LinkingObjects<"|..|s| - 1])
    else
      Named(s)
  }

  /** The related class name, or the fallback when it is absent. */
  function RelatedType(p: Property): string {
    p.objectClassName.GetOr(Fallback)
  }

  /**
   The rendered type reads back as intended: a list or linking-objects collection
   of the related class, the related class itself for a to-one link, and a plain
   name for every primitive. Only a to-one link needs its class name free of `<`,
   which would otherwise read as the start of a generic type.
   */
  lemma ValueTypeParses(p: Property)
    requires p.kind.Object? ==> '<' !in RelatedType(p)
    ensures p.kind.Array? ==> ParseType(ValueType(p)) == Generic("List", RelatedType(p))
    ensures p.kind.LinkingObjects? ==> ParseType(ValueType(p)) == Generic("LinkingObjects", RelatedType(p))
    ensures p.kind.Object? ==> ParseType(ValueType(p)) == Named(RelatedType(p))
    ensures !p.kind.IsRelationship() ==> ParseType(ValueType(p)) == Named(ValueType(p))
  {
    var related := RelatedType(p);
    match p.kind {
      case Array => ParseList(related);
      case LinkingObjects => ParseLinkingObjects(related);
      case Object => ParseNamed(related);
      case _ => ParseNamed(ValueType(p));
    }
  }

  lemma ParseList(element: string)
    ensures ParseType("List<" + element + ">") == Generic("List", element)
  {
    var s := "List<" + element + ">";
    assert s[..|"List<"|] == "List<";
    assert s[|"List<"|..|s| - 1] == element;
  }

  lemma ParseLinkingObjects(element: string)
    ensures ParseType("LinkingObjects<" + element + ">") == Generic("LinkingObjects", element)
  {
    var s := "LinkingObjects<" + element + ">";
    assert s[..|"List<"|][4] == 'i';
    assert s[..|"LinkingObjects<"|] == "LinkingObjects<";
    assert s[|"LinkingObjects<"|..|s| - 1] == element;
  }

  lemma ParseNamed(name: string)
    requires '<' !in name
    ensures ParseType(name) == Named(name)
  {
    if |name| >= |"List<"| {
      assert name[..|"List<"|][4] == name[4] && name[4] in name;
    }
    if |name| >= |"LinkingObjects<"| {
      assert name[..|"LinkingObjects<"|][14] == name[14] && name[14] in name;
    }
  }

  /** A primitive kind's type does not depend on the related class name. */
  lemma PrimitiveIgnoresRelatedClass(p: Property, className: Option<string>)
    requires !p.kind.IsRelationship()
    ensures ValueType(p.(objectClassName := className)) == ValueType(p)
  {
  }

  /** Distinct primitive kinds get distinct type names. */
  lemma PrimitiveTypesDistinct(p: Property, q: Property)
    requires !p.kind.IsRelationship() && !q.kind.IsRelationship()
    requires p.kind != q.kind
    ensures ValueType(p) != ValueType(q)
  {
  }

  /** A relationship without a related class is typed exactly as one related to the fallback. */
  lemma MissingRelatedClassIsFallback(p: Property)
    requires p.kind.IsRelationship() && p.objectClassName.None?
    ensures ValueType(p) == ValueType(p.(objectClassName := Some(Fallback)))
  {
  }
}
