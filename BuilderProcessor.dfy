/**
 The annotation processor that derives, for every class annotated `@Builder`,
 a companion class `<Simple>Builder` in the same package: one private field
 and one setter per field of the class, and a `build()` method that passes
 the stored values to the class's constructor in declaration order.
 */
module BuilderProcessor {
  import opened JavaLang
  import opened Elements
  import opened JavaPoet

  /**
   `getPackageName`: the qualified name up to its last '.'. A name without
   '.' (a class in the unnamed package) makes `substring(0, -1)` throw.
   */
  function GetPackageName<T>(clazz: Element<T>): (r: Result<string, JavaException>)
    ensures r.Ok? <==> '.' in clazz.qualifiedName
    ensures r.Ok? ==>
      var q, p := clazz.qualifiedName, r.value;
      |p| < |q| && q[..|p|] == p && q[|p|] == '.' && '.' !in q[|p| + 1..]
    ensures r.Err? ==> r.error == StringIndexOutOfBounds(0, -1, |clazz.qualifiedName|)
  {
    var q := clazz.qualifiedName;
    Substring(q, 0, LastIndexOf(q, '.'))
  }

  /** `createFields`: one private builder field per source field, same name and type, same order. */
  function CreateFields<T>(fields: seq<Element<T>>): (r: seq<FieldSpec<T>>)
    ensures |r| == |fields|
    ensures forall i :: 0 <= i < |fields| ==>
      r[i].name == fields[i].simpleName && r[i].typ == fields[i].asType && r[i].modifiers == [Private]
  {
    if fields == [] then []
    else [FieldSpec(fields[0].asType, fields[0].simpleName, [Private])] + CreateFields(fields[1..])
  }

  /** The name of the setter for a field: "set" followed by the capitalized field name. */
  function SetterName(field: string): string
  {
    "set" + Capitalize(field)
  }

  /**
   `createSetters`: one public void setter per field, in field order, taking
   one parameter named and typed like the field and assigning it to the field.
   */
  function CreateSetters<T>(fields: seq<Element<T>>): (r: seq<MethodSpec<T>>)
    ensures |r| == |fields|
    ensures forall i :: 0 <= i < |fields| ==>
      var n := fields[i].simpleName;
      && r[i].name == SetterName(n)
      && r[i].modifiers == [Public]
      && r[i].returnType == None
      && r[i].parameters == [ParameterSpec(fields[i].asType, n)]
      && r[i].statements == ["this." + n + "=" + n]
  {
    if fields == [] then []
    else
      var n := fields[0].simpleName;
      var setter := MethodSpec(SetterName(n), [Public], None, [ParameterSpec(fields[0].asType, n)], ["this." + n + "=" + n]);
      [setter] + CreateSetters(fields[1..])
  }

  /** The constructor arguments of `build()`: "this." and each field name, in field order. */
  function ConstructorArguments<T>(fields: seq<Element<T>>): (r: seq<string>)
    ensures |r| == |fields|
    ensures forall i :: 0 <= i < |fields| ==> r[i] == "this." + fields[i].simpleName
  {
    if fields == [] then []
    else ["this." + fields[0].simpleName] + ConstructorArguments(fields[1..])
  }

  /**
   `createBuildMethod`: a public `build()` returning the class's type, whose
   one statement calls the class's constructor with the stored fields.
   */
  function CreateBuildMethod<T>(clazz: Element<T>, fields: seq<Element<T>>): MethodSpec<T>
  {
    var params := Join(",", ConstructorArguments(fields));
    MethodSpec("build", [Public], Some(clazz.asType), [], ["return new " + clazz.simpleName + "(" + params + ")"])
  }

  /**
   `createBuilderClass`: the public class `<Simple>Builder` holding the
   builder fields, then the setters, then `build()`, in the class's package.
   Of the failures of the original, only the package derivation is modelled.
   */
  function CreateBuilderClass<T>(clazz: Element<T>, fields: seq<Element<T>>): (r: Result<JavaFile<T>, JavaException>)
    ensures r.Ok? <==> '.' in clazz.qualifiedName
    ensures r.Err? ==> r.error == StringIndexOutOfBounds(0, -1, |clazz.qualifiedName|)
    ensures r.Ok? ==> GetPackageName(clazz) == Ok(r.value.packageName) && r.value.indent == "    "
    ensures r.Ok? ==>
      var builder, n := r.value.typeSpec, |fields|;
      && builder.name == clazz.simpleName + "Builder"
      && builder.modifiers == [Public]
      && |builder.fields| == n
      && |builder.methods| == n + 1
      && builder.methods[n] == CreateBuildMethod(clazz, fields)
      && builder.methods[n].name == "build"
      && builder.methods[n].modifiers == [Public]
      && builder.methods[n].returnType == Some(clazz.asType)
      && builder.methods[n].parameters == []
      && |builder.methods[n].statements| == 1
    ensures r.Ok? ==>
      var builder := r.value.typeSpec;
      forall i :: 0 <= i < |fields| ==>
        var field, setter := builder.fields[i], builder.methods[i];
        && field == FieldSpec(fields[i].asType, fields[i].simpleName, [Private])
        && setter.name == SetterName(field.name)
        && setter.name != "build"
        && setter.modifiers == [Public]
        && setter.returnType == None
        && setter.parameters == [ParameterSpec(field.typ, field.name)]
        && setter.statements == ["this." + field.name + "=" + setter.parameters[0].name]
  {
    var fieldSpecs := CreateFields(fields);
    var methodSpecs := CreateSetters(fields);
    var buildMethod := CreateBuildMethod(clazz, fields);
    var builder := TypeSpec(clazz.simpleName + "Builder", [Public], fieldSpecs, methodSpecs + [buildMethod]);
    assert forall i :: 0 <= i < |fields| ==> builder.methods[i] == methodSpecs[i];
    assert forall i :: 0 <= i < |fields| ==> builder.methods[i].name[0] == 's' != "build"[0];
    match GetPackageName(clazz)
    case Err(e) => Err(e)
    case Ok(packageName) => Ok(JavaFile(packageName, builder, "    "))
  }

  /** The builder file the processor derives for one annotated class. */
  function BuilderFor<T>(clazz: Element<T>): Result<JavaFile<T>, JavaException>
  {
    CreateBuilderClass(clazz, FieldsIn(clazz.enclosed))
  }

  /** The classes among the first `i` annotated elements, then the one at `i`. */
  lemma ClassesStep<T>(elements: seq<Element<T>>, i: nat)
    requires i < |elements|
    ensures OfKind(elements[..i + 1], Class) ==
      OfKind(elements[..i], Class) + (if elements[i].kind == Class then [elements[i]] else [])
  {
    OfKindAppend(elements[..i], [elements[i]], Class);
    assert elements[..i + 1] == elements[..i] + [elements[i]];
  }

  /** A class at position `i` follows the classes before it among all classes. */
  lemma ClassAt<T>(elements: seq<Element<T>>, i: nat)
    requires i < |elements| && elements[i].kind == Class
    ensures var classes, before := OfKind(elements, Class), OfKind(elements[..i], Class);
      && |before| < |classes|
      && (forall k :: 0 <= k < |before| ==> classes[k] == before[k])
      && classes[|before|] == elements[i]
  {
    var before, after := OfKind(elements[..i], Class), OfKind(elements[i + 1..], Class);
    ClassesStep(elements, i);
    OfKindAppend(elements[..i + 1], elements[i + 1..], Class);
    assert elements == elements[..i + 1] + elements[i + 1..];
    var classes := before + [elements[i]] + after;
    assert OfKind(elements, Class) == classes;
    assert classes[..|before|] == before;
    assert classes[|before|] == elements[i];
  }

  /**
   `process`, for the elements annotated `@Builder` in one round: every
   element of class kind, in order, gets its builder derived and written. An
   exception from `getPackageName` is not caught (only the `IOException` of
   the write is), so it ends the round: the files written before it stay
   written and no later class is processed. When the round completes, the
   original returns `true` (the annotation is claimed); that constant is
   not part of the results here.
   */
  method Process<T>(elements: seq<Element<T>>) returns (written: seq<JavaFile<T>>, thrown: Option<JavaException>)
    ensures |written| <= |OfKind(elements, Class)|
    ensures forall i :: 0 <= i < |written| ==> BuilderFor(OfKind(elements, Class)[i]) == Ok(written[i])
    ensures thrown.None? <==>
      forall k :: 0 <= k < |OfKind(elements, Class)| ==> '.' in OfKind(elements, Class)[k].qualifiedName
    ensures thrown.None? ==> |written| == |OfKind(elements, Class)|
    ensures thrown.Some? ==> |written| < |OfKind(elements, Class)|
    ensures thrown.Some? ==>
      var failed := OfKind(elements, Class)[|written|];
      '.' !in failed.qualifiedName && thrown.value == StringIndexOutOfBounds(0, -1, |failed.qualifiedName|)
  {
    written, thrown := [], None;
    var i := 0;
    while i < |elements|
      invariant 0 <= i <= |elements|
      invariant |written| == |OfKind(elements[..i], Class)|
      invariant forall k :: 0 <= k < |written| ==> BuilderFor(OfKind(elements[..i], Class)[k]) == Ok(written[k])
    {
      var element := elements[i];
      ClassesStep(elements, i);
      if element.kind == Class {
        var file := BuilderFor(element);
        if file.Err? {
          thrown := Some(file.error);
          ClassAt(elements, i);
          return;
        }
        written := written + [file.value];
      }
      i := i + 1;
    }
    assert elements[..i] == elements;
  }
}
