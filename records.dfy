/**
 * The server records the web client works with (services/project.service.ts,
 * services/text.service.ts), reduced to the fields the components use, and the
 * browser's `File`.
 */
module Records {
  datatype Project = Project(id: int, name: string, description: string)
  datatype Document = Document(id: int, name: string)
  datatype UserText = UserText(id: int, title: string, content: string)

  /** A file chosen or dropped in the browser: its name, MIME type and size in bytes. */
  datatype PickedFile = PickedFile(name: string, mimeType: string, size: nat)
}
