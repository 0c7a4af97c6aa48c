/** The record the result table is built from, and the part of a browser
    `File` the application reads. */
module Types {
  import opened JsRuntime

  /** Lifecycle of one extraction result. */
  datatype Status = Pending | Success | Error

  /** One row of results: a file's derived key, its label, the two
      extracted fields, its status and, after a failure, the message. */
  datatype GiftCardData = GiftCardData(
    id: string,
    fileName: string,
    serialNumber: string,
    password: string,
    status: Status,
    errorMessage: Option<string>)

  /** A selected file: its name, last-modified timestamp (milliseconds)
      and MIME type. */
  datatype ImageFile = ImageFile(name: string, lastModified: int, mimeType: string)

  /** The two fields the extraction service yields for one image. */
  datatype Fields = Fields(serialNumber: string, password: string)
}
