/**
 * The server page (src/app/page.tsx): which task list the screen starts
 * from, given the request's cookies. `JSON.parse` is a parameter `parse`
 * whose outcome is one of three cases.
 */
module Page {
  import opened Types
  import opened Constants

  /** The cookies of a request, by name. */
  type Jar = map<string, string>

  /** The outcome of `JSON.parse` on the raw tasks cookie. */
  datatype ParseResult =
    | ParseError
    | NonArray
    | Array(items: seq<Task>)

  /** `cookieStore.get(name)?.value`. */
  function Cookie(jar: Jar, name: string): (r: Option<string>)
    ensures r.Some? <==> name in jar
    ensures r.Some? ==> r.value == jar[name]
  {
    if name in jar then Some(jar[name]) else None
  }

  /** The raw tasks cookie counts only when present and non-empty (a JavaScript truthy string). */
  function HasRawTasks(jar: Jar): (r: bool)
    ensures r <==> TasksStorageKey in jar && jar[TasksStorageKey] != ""
  {
    var raw := Cookie(jar, TasksStorageKey);
    raw.Some? && raw.value != ""
  }

  /** `initialized`: the flag cookie holds exactly `"true"`. */
  function Initialized(jar: Jar): (r: bool)
    ensures r <==> InitFlagKey in jar && jar[InitFlagKey] == "true"
  {
    Cookie(jar, InitFlagKey) == Some("true")
  }

  /**
   * `initialTasks`: the parsed raw cookie when it is an array, nothing when
   * it does not parse to one, the defaults on a first visit and nothing after
   * it. The result is always empty, the defaults, or exactly what the raw
   * cookie parses to.
   */
  function InitialTasks(jar: Jar, parse: string -> ParseResult): (r: seq<Task>)
    ensures r == [] || r == DefaultTasks || (HasRawTasks(jar) && parse(jar[TasksStorageKey]) == Array(r))
    ensures !HasRawTasks(jar) ==> r == (if Initialized(jar) then [] else DefaultTasks)
  {
    var raw := Cookie(jar, TasksStorageKey);
    if raw.Some? && raw.value != "" then
      match parse(raw.value)
      case Array(items) => items
      case _ => []
    else if !Initialized(jar) then
      DefaultTasks
    else
      []
  }

  /** A non-empty raw cookie that parses to an array gives exactly that array. */
  lemma RawArrayShown(jar: Jar, parse: string -> ParseResult, items: seq<Task>)
    requires HasRawTasks(jar) && parse(jar[TasksStorageKey]) == Array(items)
    ensures InitialTasks(jar, parse) == items
  {
  }

  /** A non-empty raw cookie that fails to parse, or parses to something else, gives nothing. */
  lemma RawUnusableEmpty(jar: Jar, parse: string -> ParseResult)
    requires HasRawTasks(jar) && !parse(jar[TasksStorageKey]).Array?
    ensures InitialTasks(jar, parse) == []
  {
  }

  /** Without a raw cookie, the defaults are shown exactly when the flag is not `"true"`. */
  lemma DefaultsOnlyBeforeInit(jar: Jar, parse: string -> ParseResult)
    requires !HasRawTasks(jar)
    ensures InitialTasks(jar, parse) == DefaultTasks <==> !Initialized(jar)
  {
    assert DefaultTasks != [];
  }

  /** Only the exact value `"true"` counts as initialized. */
  lemma FlagValueExact(jar: Jar, value: string)
    ensures Initialized(jar[InitFlagKey := value]) <==> value == "true"
  {
  }

  /** With a raw cookie present, the flag has no influence on the result. */
  lemma FlagIrrelevantWithRaw(jar: Jar, parse: string -> ParseResult, flag: Option<string>)
    requires HasRawTasks(jar)
    ensures var other := if flag.Some? then jar[InitFlagKey := flag.value] else jar - {InitFlagKey};
      InitialTasks(other, parse) == InitialTasks(jar, parse)
  {
    var other := if flag.Some? then jar[InitFlagKey := flag.value] else jar - {InitFlagKey};
    assert InitFlagKey != TasksStorageKey;
    assert other[TasksStorageKey] == jar[TasksStorageKey];
  }
}
