/** `validate_input`: prompt until the lower-cased answer is one of the
    options. The user's answers are the sequence `responses`, read in
    order; running out of answers is where Python's `input()` would raise
    `EOFError`. */
module Validate {
  import opened Wrappers
  import opened Text
  import opened Lookups

  /** `response` spells `option` up to the case of its letters. */
  predicate SpellsIgnoringCase(response: string, option: string)
  {
    |option| == |response| && forall k :: 0 <= k < |response| ==> option[k] == LowerChar(response[k])
  }

  /** The acceptance test of one answer: it is accepted exactly when it
      spells one of the options, ignoring case. */
  predicate Accepts(response: string, options: seq<string>)
    ensures Accepts(response, options) <==>
      exists i :: 0 <= i < |options| && SpellsIgnoringCase(response, options[i])
  {
    assert forall i :: 0 <= i < |options| && SpellsIgnoringCase(response, options[i]) ==>
      options[i] == Lower(response);
    Lower(response) in options
  }

  /** The position of the first accepted answer, if any. */
  function FirstAccepted(responses: seq<string>, options: seq<string>): (r: Option<nat>)
    ensures r.Some? ==> r.value < |responses| && Accepts(responses[r.value], options)
    ensures r.Some? ==> forall i :: 0 <= i < r.value ==> !Accepts(responses[i], options)
    ensures r.None? ==> forall i :: 0 <= i < |responses| ==> !Accepts(responses[i], options)
  {
    if responses == [] then None
    else if Accepts(responses[0], options) then Some(0)
    else match FirstAccepted(responses[1..], options)
      case None => None
      case Some(i) => Some(i + 1)
  }

  /** Reads answers until one is accepted and returns it lower-cased;
      `used` is how many answers were read. */
  method ValidateInput(responses: seq<string>, options: seq<string>)
    returns (selection: Option<string>, used: nat)
    ensures used <= |responses|
    ensures selection.Some? ==> selection.value in options
    ensures selection.Some? ==>
      0 < used && selection.value == Lower(responses[used - 1])
    ensures selection.Some? <==> FirstAccepted(responses, options).Some?
    ensures selection.Some? ==> FirstAccepted(responses, options) == Some(used - 1)
    ensures selection.None? ==> used == |responses|
    ensures Prompt(responses, options) ==
      if selection.Some? then Some((selection.value, responses[used..])) else None
  {
    used := 0;
    while used < |responses|
      invariant used <= |responses|
      invariant forall i :: 0 <= i < used ==> !Accepts(responses[i], options)
    {
      var response := Lower(responses[used]);
      used := used + 1;
      if response in options {
        FirstAcceptedIsFirst(responses, options, used - 1);
        return Some(response), used;
      }
    }
    FirstAcceptedNone(responses, options);
    return None, used;
  }

  lemma {:induction false} FirstAcceptedIsFirst(responses: seq<string>, options: seq<string>, k: nat)
    requires k < |responses| && Accepts(responses[k], options)
    requires forall i :: 0 <= i < k ==> !Accepts(responses[i], options)
    ensures FirstAccepted(responses, options) == Some(k)
  {
    if k > 0 {
      FirstAcceptedIsFirst(responses[1..], options, k - 1);
    }
  }

  lemma {:induction false} FirstAcceptedNone(responses: seq<string>, options: seq<string>)
    requires forall i :: 0 <= i < |responses| ==> !Accepts(responses[i], options)
    ensures FirstAccepted(responses, options) == None
  {
    if responses != [] {
      FirstAcceptedNone(responses[1..], options);
    }
  }

  /** An answer and its lower-cased form are accepted alike, so the
      returned selection would itself be accepted if typed again. */
  lemma AcceptanceIsCaseInsensitive(response: string, options: seq<string>)
    ensures Accepts(Lower(response), options) == Accepts(response, options)
  {
    LowerIdempotent(response);
  }

  /** One prompt: the lower-cased first accepted answer and the answers
      left after it, or `None` when no answer is accepted. */
  function Prompt(responses: seq<string>, options: seq<string>): (r: Option<(string, seq<string>)>)
    ensures r.Some? <==> FirstAccepted(responses, options).Some?
    ensures r.Some? ==>
      var k := FirstAccepted(responses, options).value;
      r.value.0 == Lower(responses[k]) && r.value.0 in options && r.value.1 == responses[k + 1..]
  {
    match FirstAccepted(responses, options)
    case None => None
    case Some(k) => Some((Lower(responses[k]), responses[k + 1..]))
  }

  /** The answers `get_filters` ends up with: the first accepted city,
      then the first accepted month among the answers after it, then the
      first accepted day among the answers after that, each lower-cased.
      `None` when the answers run out before all three are given. Whatever
      it returns is safe for `load_data`: the city has a file name, and the
      month and day are `"all"` or have a number. */
  function FiltersFrom(responses: seq<string>): (r: Option<(string, string, string)>)
    ensures r.Some? ==>
      var (city, month, day) := r.value;
      && city in CITY_OPTIONS && month in MONTH_OPTIONS && day in DAY_OPTIONS
      && city in CITY_DATA
      && (month == ALL || (MonthNumber(month).Some? && 1 <= MonthNumber(month).value <= 6))
      && (day == ALL || (DayNumber(day).Some? && 0 <= DayNumber(day).value <= 6))
    ensures FirstAccepted(responses, CITY_OPTIONS).None? ==> r.None?
  {
    match Prompt(responses, CITY_OPTIONS)
    case None => None
    case Some((city, afterCity)) =>
      match Prompt(afterCity, MONTH_OPTIONS)
      case None => None
      case Some((month, afterMonth)) =>
        match Prompt(afterMonth, DAY_OPTIONS)
        case None => None
        case Some((day, _)) =>
          CityOptionsHaveFiles();
          MonthOptionsResolve(month);
          DayOptionsResolve(day);
          Some((city, month, day))
  }

  /** `get_filters`: the city, month and day prompts in turn, each reading
      on from where the previous one stopped. */
  method GetFilters(responses: seq<string>) returns (filters: Option<(string, string, string)>)
    ensures filters == FiltersFrom(responses)
  {
    var city, used := ValidateInput(responses, CITY_OPTIONS);
    if city.None? {
      return None;
    }
    var rest := responses[used..];
    var month, usedMonth := ValidateInput(rest, MONTH_OPTIONS);
    if month.None? {
      return None;
    }
    rest := rest[usedMonth..];
    var day, usedDay := ValidateInput(rest, DAY_OPTIONS);
    if day.None? {
      return None;
    }
    return Some((city.value, month.value, day.value));
  }
}
