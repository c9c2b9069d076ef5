/** The operating-system check `set_operating_system`, with the value of
    `platform.system()` passed in. */
module Platform {
  import Text

  /** The operating systems the tool supports, in lower case. */
  const SupportedOs: seq<string> := ["windows", "linux", "darwin"]

  /** The `OSError` the check raises. */
  const InvalidOsMessage: string := "Invalid Operating System!"

  datatype Result<T> = Ok(value: T) | Err(message: string)

  /** `set_operating_system`: the lower-cased system name when it names a
      supported system, otherwise the error. */
  function SetOperatingSystem(system: string): (r: Result<string>)
    ensures r.Ok? <==> Text.ToLower(system) in SupportedOs
    ensures r.Ok? ==> r.value in SupportedOs && r.value == Text.ToLower(system)
    ensures r.Err? ==> r.message == InvalidOsMessage
  {
    var operatingSystem := Text.ToLower(system);
    if operatingSystem !in SupportedOs then Err(InvalidOsMessage) else Ok(operatingSystem)
  }

  /** The check ignores case: it gives the same answer on a lower-cased name. */
  lemma SetOperatingSystemIgnoresCase(system: string)
    ensures SetOperatingSystem(Text.ToLower(system)) == SetOperatingSystem(system)
  {
    Text.ToLowerIdempotent(system);
  }

  /** The names `platform.system()` reports for the three supported systems
      are accepted; others it can report (`Java`, the empty string) are not. */
  lemma KnownSystems()
    ensures SetOperatingSystem("Linux") == Ok("linux")
    ensures SetOperatingSystem("Windows") == Ok("windows")
    ensures SetOperatingSystem("Darwin") == Ok("darwin")
    ensures SetOperatingSystem("Java") == Err(InvalidOsMessage)
    ensures SetOperatingSystem("") == Err(InvalidOsMessage)
  {
    assert Text.ToLower("Linux") == "linux";
    assert Text.ToLower("Windows") == "windows";
    assert Text.ToLower("Darwin") == "darwin";
    assert Text.ToLower("Java") == "java";
  }
}
