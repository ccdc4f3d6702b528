/** The directive syntax constants the agent is configured with. */
module Config {

  /** Directive bodies are captured by the regular expression `\[\[(.*?)\]\]`. */
  const Opener := "[["
  const Closer := "]]"

  /** The typed prefixes, in the order the dispatcher tests them. */
  const FilePrefix := "FILE:"
  const DirPrefix := "DIR:"
  const RunPrefix := "RUN:"
  const GitPrefix := "GIT:"
  const InstallPrefix := "INSTALL:"
}
