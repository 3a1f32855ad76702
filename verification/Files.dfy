/** A file on disk, as far as the editing tools see it. */
module Files {

  class TextFile {
    var content: string

    constructor (content: string)
      ensures this.content == content
    {
      this.content := content;
    }
  }
}
