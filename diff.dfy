/** The record both hunk parsers produce (`git.Hunk` in either snapshot). */
module Diff {

  /**
   * One `@@` block of a file's diff: the path of the file it changes, its `@@ ... @@` header
   * line, and the text a patch needs to replay it.
   */
  datatype Hunk = Hunk(filePath: string, header: string, body: string)
}
