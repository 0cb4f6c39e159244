# Builder annotation processor — Dafny model

This project models the `@Builder` annotation processor. It is a Java
compile-time plugin. For every class annotated `@Builder`, it writes a
companion class `<Simple>Builder` into the same package. That class holds:

- one private field per field of the annotated class;
- one public setter `set<Name>` per field;
- one `build()` method that calls the class's constructor with the stored
  fields, in declaration order.

The model is split by the parts of the program:

- `JavaLang.dfy` models the library calls the processor relies on.
  - `String.lastIndexOf`, characterised by its contract.
  - `String.substring` and its `StringIndexOutOfBoundsException`, and
    `StringUtils.capitalize`. These two are library definitions. Their
    contracts only repeat the definitions, and no proof needs them. What
    the processor gets from them is proved about `GetPackageName`,
    `CapitalizeCollides` and `SetterNamesCollide`.
  - `Collectors.joining`.
  - `Split`, a reader that undoes the join, so that the generated argument
    list can be read back.
- `Elements.dfy` models the compiler's elements: kind, qualified and simple
  name, type, and enclosed elements. The class-kind test is the filter
  `OfKind`. `ElementFilter.fieldsIn` is `FieldsIn`, which keeps fields and
  enum constants. A class encloses no enum constants, so there `FieldsIn`
  agrees with `OfKind(_, Field)` (`FieldsInWithoutEnumConstants`).
- `JavaPoet.dfy` models the generated code as data: field, parameter, method
  and type specs, and the Java file with its package name.
- `BuilderProcessor.dfy` models the processor: `getPackageName`,
  `createFields`, `createSetters`, `createBuildMethod`, `createBuilderClass`,
  and `process` as a method with a loop.
- `BuilderProperties.dfy` holds the properties that relate several
  operations. `ParseReturnNew` reads the `build()` statement back into a
  type name and argument list.

Java types are the opaque type parameter `T`. They are copied, never
inspected.

What the code does:

- A qualified name without '.' makes `substring(0, -1)` throw
  `StringIndexOutOfBoundsException`. Only the `IOException` of the write is
  caught, so this exception leaves `process`, and the later classes of the
  round are not processed. `Process` returns the files written before the
  exception, together with the exception.
- Two fields whose names differ only in the case of their first letter get
  setters with the same name. Both setters stay in the method list; neither
  replaces the other.
- The generated constructor call has no spaces: `this.name,this.age`.
- The package is whatever precedes the last '.' of the qualified name. For a
  nested class `p.Outer.Inner`, that is `p.Outer`.

## Model

| member | source | states |
|---|---|---|
| `JavaLang.LastIndexOf` | annotation-processor/src/main/java/com/darwinit/annotation/builder/BuilderProcessor.java:95 | The result is -1 exactly when the character is absent. Otherwise the character is at the result and at no later index. |
| `JavaLang.SplitJoin` | annotation-processor/src/main/java/com/darwinit/annotation/builder/BuilderProcessor.java:77-79 | Joining with "," loses nothing: when no part holds the separator, splitting the joined text gives back the same non-empty list of parts. |
| `JavaLang.JoinSplit` | annotation-processor/src/main/java/com/darwinit/annotation/builder/BuilderProcessor.java:77-79 | The other direction: joining the pieces of any split text gives the text back. |
| `JavaLang.CapitalizeCollides` | annotation-processor/src/main/java/com/darwinit/annotation/builder/BuilderProcessor.java:101 | Two names capitalize alike if and only if they have the same length, the same remainder after the first character, and first characters with the same title case. |
| `Elements.OfKind` | annotation-processor/src/main/java/com/darwinit/annotation/builder/BuilderProcessor.java:31 | The class-kind test keeps only elements of the wanted kind, and never more elements than it is given. |
| `Elements.OfKindMembers` | annotation-processor/src/main/java/com/darwinit/annotation/builder/BuilderProcessor.java:31 | An element survives the filter if and only if it was in the input and has the wanted kind. |
| `Elements.OfKindAppend` | annotation-processor/src/main/java/com/darwinit/annotation/builder/BuilderProcessor.java:29-31 | The filter distributes over concatenation, so it keeps the input order. |
| `Elements.FieldsIn` | annotation-processor/src/main/java/com/darwinit/annotation/builder/BuilderProcessor.java:35 | `fieldsIn` keeps only fields and enum constants, and never more elements than it is given. |
| `Elements.FieldsInMembers` | annotation-processor/src/main/java/com/darwinit/annotation/builder/BuilderProcessor.java:35 | An element survives `fieldsIn` if and only if it was in the input and is a field or an enum constant. |
| `Elements.FieldsInWithoutEnumConstants` | annotation-processor/src/main/java/com/darwinit/annotation/builder/BuilderProcessor.java:31-35 | Among elements without enum constants, such as a class's members, `fieldsIn` is exactly the field-kind filter, order included. |
| `BuilderProcessor.GetPackageName` | annotation-processor/src/main/java/com/darwinit/annotation/builder/BuilderProcessor.java:94-96 | Succeeds if and only if the qualified name contains '.'. The package is then a proper prefix, followed by '.', and the rest holds no '.'. Otherwise it throws `StringIndexOutOfBounds(0, -1, length)`. |
| `BuilderProcessor.CreateFields` | annotation-processor/src/main/java/com/darwinit/annotation/builder/BuilderProcessor.java:109-115 | Exactly one field spec per input field, in input order. Each has the field's name and type and the single modifier `private`. |
| `BuilderProcessor.CreateSetters` | annotation-processor/src/main/java/com/darwinit/annotation/builder/BuilderProcessor.java:98-107 | Exactly one setter per field, in field order. Each is public, returns void, is named "set" plus the capitalized field name, takes one parameter with the field's name and type, and has the single statement `this.<n>=<n>`. |
| `BuilderProcessor.ConstructorArguments` | annotation-processor/src/main/java/com/darwinit/annotation/builder/BuilderProcessor.java:77-79 | One argument per field, in field order, each "this." followed by the field name. |
| `BuilderProcessor.CreateBuilderClass` | annotation-processor/src/main/java/com/darwinit/annotation/builder/BuilderProcessor.java:57-74 | A builder is produced if and only if the qualified name contains '.'; otherwise the package error comes out. The "only if" direction (builder produced ⟹ '.' present) holds for the original as well. The "if" direction ('.' present ⟹ builder produced) holds only for the failures modelled here; see the `CreateBuilderClass` line under "## Left out". See also the notes below this table. |
| `BuilderProcessor.Process` | annotation-processor/src/main/java/com/darwinit/annotation/builder/BuilderProcessor.java:24-55 | Writes the builders for the class-kind elements, in order, each from the `fieldsIn` of the class's members. It ends without an exception if and only if every class has '.' in its qualified name. The "if" direction (every class has '.' ⟹ no exception) holds only for the failures modelled here; see "## Left out". When it ends without an exception, one file is written per class. Otherwise it stops at the first class without '.', with that class's exception, and keeps the files written before it. |
| `BuilderProperties.PackageOfQualifiedName` | annotation-processor/src/main/java/com/darwinit/annotation/builder/BuilderProcessor.java:94-96 | Qualifying a simple name without '.' by a package and then deriving the package gives that package back. |
| `BuilderProperties.UnnamedPackageFails` | annotation-processor/src/main/java/com/darwinit/annotation/builder/BuilderProcessor.java:95 | A class in the unnamed package gets no builder: the derivation throws `StringIndexOutOfBounds(0, -1, length)`. |
| `BuilderProperties.BuildStatementRoundTrip` | annotation-processor/src/main/java/com/darwinit/annotation/builder/BuilderProcessor.java:76-92 | Reading the `build()` statement back gives a constructor call of the annotated class's simple name. It has one argument per field, `this.<field>`, in declaration order. |
| `BuilderProperties.NoFieldsBuild` | annotation-processor/src/main/java/com/darwinit/annotation/builder/BuilderProcessor.java:77-83 | With no fields, the statement is `return new <Simple>()`. |
| `BuilderProperties.BuildPassesBuilderFields` | annotation-processor/src/main/java/com/darwinit/annotation/builder/BuilderProcessor.java:57-92 | In a produced builder, `build()` passes exactly the builder's own fields, `this.<field>`, in the builder's field order, to the class's constructor. |
| `BuilderProperties.SetterNamesCollide` | annotation-processor/src/main/java/com/darwinit/annotation/builder/BuilderProcessor.java:101 | Two fields get the same setter name if and only if their names have the same length, the same remainder and first characters with the same title case. |
| `BuilderProperties.CollidingSettersAreKept` | annotation-processor/src/main/java/com/darwinit/annotation/builder/BuilderProcessor.java:98-107 | Take a field whose name starts with a lower-case letter and a field with that name capitalized. They are distinct fields but get identical setter names, and the builder is still produced with both setters. Nothing detects the collision. |

What `BuilderProcessor.CreateBuilderClass` states when a builder is produced:

- the package is the one derived from the qualified name, and the indent is four spaces;
- the class is public and named `<Simple>Builder`;
- with n fields it has n fields and n+1 methods, in this order:
  - builder field i is private, with input field i's name and type;
  - method i is the public void setter of builder field i; it takes a parameter of that field's name and type and assigns it to the field;
  - no setter is named `build`;
  - the last method is the public, parameterless `build()`; it returns the class's type and has one statement.

## Left out

- Diagnostics: the notes printed through the `Messager` are not modelled. They never affect control flow or output.
- `process` returns `true` when the round completes, claiming the annotation for this processor. `Process` does not return that constant; it returns the written files and the exception, if any.
- The Filer write: `Process` returns the files handed to `writeTo` in order. The write itself is not modelled. Neither is its swallowed `IOException`, nor a name clash with an existing file.
- The outer loop over `annotations`: the processor supports a single annotation type, so the model takes one annotation's elements. The order in which the compiler's element set is iterated is taken to be the order of the given sequence.
- JavaPoet rendering: source text layout, indentation and statement semicolons are not modelled. Statements are kept as the raw strings passed to `addStatement`.
- `TypeName.get` and `TypeMirror` resolution: types are an opaque type parameter, copied unchanged.
- `Capitalize`: does not model Unicode title case. Only `a`-`z` map to `A`-`Z`; every other character is left as it is.
- `ElementKind` lists the kinds the processor can meet. Those the processor never distinguishes are folded into `Other`.
- The plugin registration annotations (`@AutoService`, `@SupportedAnnotationTypes`, `@SupportedSourceVersion`) are not modelled.
- The demo class src/main/java/com/darwinit/annotation/demo/domain/Person.java is not part of this model. It is only an example input.
- BuildStatementRoundTrip: assumes that the field names contain neither '(' nor ','. Every Java identifier meets this.
- BuildPassesBuilderFields: makes the same assumption about field names.
- CreateBuilderClass: the two statements are passed to JavaPoet's `addStatement(String format, Object...)` as format strings (lines 83 and 104). A '$' in a class or field name is therefore read as format syntax: `$$` is rendered as a single '$', and most other uses of '$' throw `IllegalArgumentException`. This format syntax is not modelled. Names are assumed free of '$', and the statements are kept as the raw text. For a name with '$', the model produces a builder where the original would throw or render different text.
- Process: for the same reason, a class or field name with '$' can throw `IllegalArgumentException`, which ends the round like the package error. The model does not capture this. The "if" direction of `Process`'s contract (every class has '.' ⟹ no exception) therefore holds only for names free of '$'.
