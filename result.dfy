/** The uniform record every directive handler produces. */
module CommandResult {
  import opened Wrappers

  /**
   * The dictionary `{"stdout", "stderr", "returncode", "message"}`; a missing
   * exit code (`None`) means that no process ran.
   */
  datatype ExecResult = ExecResult(stdout: string, stderr: string, returncode: Option<int>, message: string)

  /** The value each handler starts from: empty texts and no exit code. */
  const Blank := ExecResult("", "", None, "")
}
