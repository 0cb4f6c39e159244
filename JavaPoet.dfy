/**
 The code-model values the processor builds with JavaPoet, as plain data.
 Statements are kept as the raw text passed to `addStatement`; rendering to
 source text is not part of this model.
 */
module JavaPoet {
  import opened JavaLang

  datatype Modifier = Public | Private

  /** `FieldSpec.builder(type, name, modifiers...)`. */
  datatype FieldSpec<T> = FieldSpec(typ: T, name: string, modifiers: seq<Modifier>)

  /** One parameter added with `addParameter(type, name)`. */
  datatype ParameterSpec<T> = ParameterSpec(typ: T, name: string)

  /**
   `MethodSpec.methodBuilder(name)`: `returnType` is `None` for `void`, the
   JavaPoet default when `returns` is never called.
   */
  datatype MethodSpec<T> = MethodSpec(
    name: string,
    modifiers: seq<Modifier>,
    returnType: Option<T>,
    parameters: seq<ParameterSpec<T>>,
    statements: seq<string>)

  /** `TypeSpec.classBuilder(name)` with its fields and methods in the order added. */
  datatype TypeSpec<T> = TypeSpec(
    name: string,
    modifiers: seq<Modifier>,
    fields: seq<FieldSpec<T>>,
    methods: seq<MethodSpec<T>>)

  /** `JavaFile.builder(packageName, typeSpec).indent(indent)`. */
  datatype JavaFile<T> = JavaFile(packageName: string, typeSpec: TypeSpec<T>, indent: string)
}
