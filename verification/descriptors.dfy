// The linked descriptors: files, messages, enums and the references between them.
module Descriptors {
  import opened Options

  /** A dotted name as its segments. */
  type Name = seq<string>

  /** A field's type as written, and as resolved. */
  datatype Declared = Named(ty: string) | MapOf(key: string, value: string)

  datatype TypeRef =
    | Unresolved
    | Builtin(name: string)
    | MessageRef(message: MessageType)
    | EnumRef(enumeration: EnumType)
    | MapRef(key: TypeRef, value: TypeRef)

  /** A field; one that an `extend` block added remembers where it was declared. */
  datatype FieldDecl = FieldDecl(declared: Declared, ty: TypeRef, origin: Option<Origin>)

  datatype Origin = Origin(file: File, scope: Name)

  class EnumType {
    const ownName: string
    const parent: MessageType?
    var scopedName: Name

    constructor (ownName: string, parent: MessageType?)
      ensures this.ownName == ownName && this.parent == parent && scopedName == []
    {
      this.ownName, this.parent, scopedName := ownName, parent, [];
    }
  }

  class MessageType {
    const ownName: string
    const parent: MessageType?
    var scopedName: Name
    var fields: seq<FieldDecl>

    constructor (ownName: string, parent: MessageType?, fields: seq<FieldDecl>)
      ensures this.ownName == ownName && this.parent == parent && scopedName == [] && this.fields == fields
    {
      this.ownName, this.parent, scopedName, this.fields := ownName, parent, [], fields;
    }
  }

  /** `import public` or a plain one; `resolved` is set by linking. */
  datatype Import = Import(path: string, isPublic: bool, resolved: File?)

  class File {
    var imports: seq<Import>
    var visible: seq<File>
    var messages: seq<MessageType>
    var enums: seq<EnumType>

    constructor (imports: seq<Import>, messages: seq<MessageType>, enums: seq<EnumType>)
      ensures this.imports == imports && this.messages == messages && this.enums == enums && visible == []
    {
      this.imports, this.messages, this.enums, visible := imports, messages, enums, [];
    }
  }
}
