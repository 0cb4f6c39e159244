/**
 Properties of the generated builder that relate several operations: the
 package name against the qualified name, the text of the `build()`
 statement read back into a constructor call, setter-name collisions, and
 the unnamed-package and no-field edge cases.
 */
module BuilderProperties {
  import opened JavaLang
  import opened Elements
  import opened JavaPoet
  import opened BuilderProcessor

  /** A constructor call read from statement text: the type and the argument texts. */
  datatype ConstructorCall = ConstructorCall(typeName: string, arguments: seq<string>)

  const ReturnNew: string := "return new "

  /**
   Reads a statement `return new <Type>(<a1>,...,<an>)` back into its type
   name and argument texts; `None` for text of any other shape.
   */
  function ParseReturnNew(stmt: string): Option<ConstructorCall>
  {
    if |stmt| <= |ReturnNew| || stmt[..|ReturnNew|] != ReturnNew || stmt[|stmt| - 1] != ')' then None
    else
      var call := stmt[|ReturnNew|..|stmt| - 1];
      var open := LastIndexOf(call, '(');
      if open < 0 then None
      else
        var args := call[open + 1..];
        Some(ConstructorCall(call[..open], if args == "" then [] else Split(args, ',')))
  }

  /**
   A qualified name made of a package name, '.', and a simple name without
   '.' yields exactly that package name.
   */
  lemma PackageOfQualifiedName<T>(clazz: Element<T>, packageName: string)
    requires '.' !in clazz.simpleName
    requires clazz.qualifiedName == packageName + "." + clazz.simpleName
    ensures GetPackageName(clazz) == Ok(packageName)
  {
    LastIndexOfBefore(packageName, '.', clazz.simpleName);
    assert clazz.qualifiedName[..|packageName|] == packageName;
  }

  /** The pieces of `return new <call>)` that the reader cuts apart. */
  lemma ReturnNewPieces(call: string)
    ensures var stmt := ReturnNew + call + ")";
      && |stmt| > |ReturnNew|
      && stmt[..|ReturnNew|] == ReturnNew
      && stmt[|stmt| - 1] == ')'
      && stmt[|ReturnNew|..|stmt| - 1] == call
  {
  }

  /** The pieces of `<type>(<args>)`, cut at the last '(', when the arguments hold no '('. */
  lemma CallPieces(typeName: string, args: string)
    requires '(' !in args
    ensures var call := typeName + "(" + args;
      && LastIndexOf(call, '(') == |typeName|
      && call[..|typeName|] == typeName
      && call[|typeName| + 1..] == args
  {
    LastIndexOfBefore(typeName, '(', args);
  }

  /** Reading a `return new` statement built from a type name and an argument text without '('. */
  lemma ParseReturnNewOf(typeName: string, args: string)
    requires '(' !in args
    ensures ParseReturnNew(ReturnNew + typeName + "(" + args + ")") ==
      Some(ConstructorCall(typeName, if args == "" then [] else Split(args, ',')))
  {
    var call := typeName + "(" + args;
    ReturnNewPieces(call);
    CallPieces(typeName, args);
    assert ReturnNew + typeName + "(" + args + ")" == ReturnNew + call + ")";
  }

  /** The constructor arguments are non-empty and hold neither '(' nor ',' when the field names hold neither. */
  lemma ArgumentsArePlain<T>(fields: seq<Element<T>>)
    requires forall i :: 0 <= i < |fields| ==> '(' !in fields[i].simpleName && ',' !in fields[i].simpleName
    ensures forall i :: 0 <= i < |fields| ==>
      var arg := ConstructorArguments(fields)[i];
      arg != "" && '(' !in arg && ',' !in arg
  {
    var args := ConstructorArguments(fields);
    forall i | 0 <= i < |fields| ensures args[i] != "" && '(' !in args[i] && ',' !in args[i] {
      FieldReferenceIsPlain(fields[i].simpleName);
    }
  }

  /** `this.<name>` holds '(' or ',' only where the name does. */
  lemma FieldReferenceIsPlain(name: string)
    requires '(' !in name && ',' !in name
    ensures var arg := "this." + name; arg != "" && '(' !in arg && ',' !in arg
  {
    var arg := "this." + name;
    forall k | 0 <= k < |arg| ensures arg[k] != '(' && arg[k] != ',' {
      if k >= 5 {
        assert arg[k] == name[k - 5];
      }
    }
  }

  /** A joined list of non-empty parts without ',' or '(' has no '(', is empty only when the list is, and splits back. */
  lemma JoinedArgumentsReadBack(args: seq<string>)
    requires forall i :: 0 <= i < |args| ==> args[i] != "" && '(' !in args[i] && ',' !in args[i]
    ensures '(' !in Join(",", args)
    ensures Join(",", args) == "" <==> args == []
    ensures args != [] ==> Split(Join(",", args), ',') == args
  {
    JoinAvoids(",", args, '(');
    if args != [] {
      SplitJoin(',', args);
      assert Split("", ',') == [""];
    }
  }

  /**
   The `build()` statement calls the constructor of the annotated class with
   `this.<field>` for every field, in declaration order, and with no
   argument when there are no fields.
   */
  lemma BuildStatementRoundTrip<T>(clazz: Element<T>, fields: seq<Element<T>>)
    requires forall i :: 0 <= i < |fields| ==> '(' !in fields[i].simpleName && ',' !in fields[i].simpleName
    ensures
      var call := ParseReturnNew(CreateBuildMethod(clazz, fields).statements[0]);
      && call.Some?
      && call.value.typeName == clazz.simpleName
      && |call.value.arguments| == |fields|
      && forall i :: 0 <= i < |fields| ==> call.value.arguments[i] == "this." + fields[i].simpleName
  {
    var params := Join(",", ConstructorArguments(fields));
    assert CreateBuildMethod(clazz, fields).statements[0] == ReturnNew + clazz.simpleName + "(" + params + ")";
    ArgumentsArePlain(fields);
    JoinedArgumentsReadBack(ConstructorArguments(fields));
    ParseReturnNewOf(clazz.simpleName, params);
  }

  /**
   In a derived builder, `build()` passes exactly the builder's own fields,
   in the order they are declared in the builder, to the class's constructor.
   */
  lemma BuildPassesBuilderFields<T>(clazz: Element<T>, fields: seq<Element<T>>)
    requires forall i :: 0 <= i < |fields| ==> '(' !in fields[i].simpleName && ',' !in fields[i].simpleName
    requires '.' in clazz.qualifiedName
    ensures
      var builder := CreateBuilderClass(clazz, fields).value.typeSpec;
      var call := ParseReturnNew(builder.methods[|fields|].statements[0]);
      && call.Some?
      && call.value.typeName == clazz.simpleName
      && |call.value.arguments| == |builder.fields|
      && forall i :: 0 <= i < |builder.fields| ==> call.value.arguments[i] == "this." + builder.fields[i].name
  {
    BuildStatementRoundTrip(clazz, fields);
  }

  /**
   Setter names collide exactly when the field names have the same length,
   the same title case of their first character and the same remainder: the
   naming looks at the first character only through its title case.
   */
  lemma SetterNamesCollide(a: string, b: string)
    ensures SetterName(a) == SetterName(b) <==>
      |a| == |b| && (|a| == 0 || (ToTitleCase(a[0]) == ToTitleCase(b[0]) && a[1..] == b[1..]))
  {
    CapitalizeCollides(a, b);
    if SetterName(a) == SetterName(b) {
      assert SetterName(a)[3..] == Capitalize(a);
      assert SetterName(b)[3..] == Capitalize(b);
    }
  }

  /**
   A field `n` whose name starts with a lower-case letter and a field named
   like `n` capitalized get the same setter name; the builder is still
   produced and holds both setters.
   */
  lemma CollidingSettersAreKept<T>(clazz: Element<T>, lower: Element<T>, upper: Element<T>)
    requires '.' in clazz.qualifiedName
    requires |lower.simpleName| > 0 && 'a' <= lower.simpleName[0] <= 'z'
    requires upper.simpleName == Capitalize(lower.simpleName)
    ensures lower.simpleName != upper.simpleName
    ensures
      var r := CreateBuilderClass(clazz, [lower, upper]);
      && r.Ok?
      && |r.value.typeSpec.methods| == 3
      && r.value.typeSpec.methods[0].name == r.value.typeSpec.methods[1].name
  {
    var n := lower.simpleName;
    assert upper.simpleName[0] != n[0];
    SetterNamesCollide(n, upper.simpleName);
  }

  /**
   A class in the unnamed package (no '.' in its qualified name) gets no
   builder: the package derivation throws.
   */
  lemma UnnamedPackageFails<T>(clazz: Element<T>)
    requires clazz.qualifiedName == clazz.simpleName && '.' !in clazz.simpleName
    ensures BuilderFor(clazz) == Err(StringIndexOutOfBounds(0, -1, |clazz.simpleName|))
  {
  }

  /** With no fields, `build()` calls the no-argument constructor. */
  lemma NoFieldsBuild<T>(clazz: Element<T>)
    ensures CreateBuildMethod(clazz, []).statements == ["return new " + clazz.simpleName + "()"]
  {
    assert ConstructorArguments<T>([]) == [];
    assert Join(",", []) == "";
    assert "return new " + clazz.simpleName + "(" + "" + ")" == "return new " + clazz.simpleName + "()";
  }
}
