/**
 The compiler's view of the program it hands to an annotation processor:
 elements (packages, types, fields, methods, ...) with their kind, names,
 type and enclosed elements. Types are the opaque parameter `T`.
 */
module Elements {

  /** The kinds of `javax.lang.model.element.ElementKind` the processor can meet. */
  datatype ElementKind =
    | Package | Enum | Class | AnnotationType | Interface | Record
    | EnumConstant | Field | Parameter | LocalVariable | Method | Constructor
    | Other

  /**
   An element: `getKind()`, `getQualifiedName()` (for types), `getSimpleName()`,
   `asType()` and `getEnclosedElements()`, the latter in declaration order.
   */
  datatype Element<T> = Element(
    kind: ElementKind,
    qualifiedName: string,
    simpleName: string,
    asType: T,
    enclosed: seq<Element<T>>)

  /**
   The elements of the given kind, in their original order: the test
   `getKind() == ElementKind.CLASS` applied to each annotated element.
   */
  function OfKind<T>(elements: seq<Element<T>>, kind: ElementKind): (r: seq<Element<T>>)
    ensures |r| <= |elements|
    ensures forall k :: 0 <= k < |r| ==> r[k].kind == kind
  {
    if elements == [] then []
    else (if elements[0].kind == kind then [elements[0]] else []) + OfKind(elements[1..], kind)
  }

  /** The filter keeps exactly the elements of the kind: no other, and none of them is lost. */
  lemma {:induction false} OfKindMembers<T>(elements: seq<Element<T>>, kind: ElementKind, e: Element<T>)
    ensures e in OfKind(elements, kind) <==> e in elements && e.kind == kind
  {
    if elements != [] {
      OfKindMembers(elements[1..], kind, e);
      assert elements == [elements[0]] + elements[1..];
    }
  }

  /** Filtering distributes over concatenation, so it keeps the elements' order. */
  lemma {:induction false} OfKindAppend<T>(a: seq<Element<T>>, b: seq<Element<T>>, kind: ElementKind)
    ensures OfKind(a + b, kind) == OfKind(a, kind) + OfKind(b, kind)
  {
    if a == [] {
      assert a + b == b;
    } else {
      assert (a + b)[0] == a[0];
      assert (a + b)[1..] == a[1..] + b;
      OfKindAppend(a[1..], b, kind);
    }
  }

  /**
   `ElementFilter.fieldsIn`: the field-like elements, in their original order.
   Enum constants count as fields here, as they do in the library.
   */
  function FieldsIn<T>(elements: seq<Element<T>>): (r: seq<Element<T>>)
    ensures |r| <= |elements|
    ensures forall k :: 0 <= k < |r| ==> r[k].kind == Field || r[k].kind == EnumConstant
  {
    if elements == [] then []
    else
      var e := elements[0];
      (if e.kind == Field || e.kind == EnumConstant then [e] else []) + FieldsIn(elements[1..])
  }

  /** `fieldsIn` keeps exactly the fields and enum constants: no other element, and none of them is lost. */
  lemma {:induction false} FieldsInMembers<T>(elements: seq<Element<T>>, e: Element<T>)
    ensures e in FieldsIn(elements) <==> e in elements && (e.kind == Field || e.kind == EnumConstant)
  {
    if elements != [] {
      FieldsInMembers(elements[1..], e);
      assert elements == [elements[0]] + elements[1..];
    }
  }

  /**
   Among elements without enum constants, such as the members of a class,
   `fieldsIn` is the filter on the field kind.
   */
  lemma {:induction false} FieldsInWithoutEnumConstants<T>(elements: seq<Element<T>>)
    requires forall k :: 0 <= k < |elements| ==> elements[k].kind != EnumConstant
    ensures FieldsIn(elements) == OfKind(elements, Field)
  {
    if elements != [] {
      FieldsInWithoutEnumConstants(elements[1..]);
    }
  }
}
