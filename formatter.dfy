/**
 * The class-wide default formatter that TDateFormat and TNumberFormat keep in a
 * static field: created on first use with the application culture, then reused.
 * Each control class has its own static field, so each owns one SharedFormatter.
 * The formatting itself (NumberFormat::format, DateFormat::format) is foreign;
 * the model records which culture the chosen formatter was built for.
 */
module Formatting {
  import opened Wrappers

  class SharedFormatter {
    /** The culture of the cached formatter; None until first use. */
    var culture: Option<string>

    constructor()
      ensures culture.None?
    {
      culture := None;
    }

    /**
     * Initialises the cached formatter when it is missing, then answers the
     * culture of the formatter to use: a fresh one for `ownCulture` when the
     * control asks for its own, otherwise the cached one.
     */
    method Select(useOwn: bool, ownCulture: string, appCulture: string) returns (used: string)
      modifies this
      ensures culture == (if old(culture).Some? then old(culture) else Some(appCulture))
      ensures useOwn ==> used == ownCulture
      ensures !useOwn ==> used == culture.value
    {
      if culture.None? {
        culture := Some(appCulture);
      }
      if useOwn {
        used := ownCulture;
      } else {
        used := culture.value;
      }
    }
  }

  /**
   * The default formatter keeps the culture the application had on first use:
   * a later change of application culture does not reach it.
   */
  method FirstCultureSticks(first: string, later: string) returns (used1: string, used2: string)
    ensures used1 == first && used2 == first
  {
    var shared := new SharedFormatter();
    used1 := shared.Select(false, "", first);
    used2 := shared.Select(false, "", later);
  }
}
