/** The parts of the PHP runtime the report functions lean on: `echo` and form input. */
module Php {

  /** The response body; `echo` appends to it. */
  class Page {
    var text: string

    constructor ()
      ensures text == ""
    {
      text := "";
    }

    /** `echo s` */
    method Echo(s: string)
      modifies this
      ensures text == old(text) + s
    {
      text := text + s;
    }
  }

  /**
   * `$posted[key]` used as text: a field the form did not send reads as null,
   * which concatenates as the empty string.
   */
  function Posted(posted: map<string, string>, key: string): string {
    if key in posted then posted[key] else ""
  }

  /** PHP's conversion of a string to bool: only "" and "0" are false. */
  predicate Truthy(s: string) {
    s != "" && s != "0"
  }
}
