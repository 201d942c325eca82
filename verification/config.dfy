/** The constants of the application's configuration module. */
module Config {
  const MaxFileSizeMb: nat := 50
  /** Bytes in a megabyte as the size check counts them (1024 * 1024). */
  const BytesPerMb: nat := 1048576
  const MaxMemoryHistory: nat := 5
  const MaxContextChunks: nat := 5
  const SupportedExtensions: seq<string> := [".pdf", ".txt", ".md", ".docx"]
}
