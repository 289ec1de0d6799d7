/**
 * components/SearchBar.tsx: the controlled text input and the submit
 * handler that passes the trimmed input on, and only when it is not blank.
 * `disabled={isLoading}` on the input and on the button is modelled as the
 * browser dropping typing and submission while a search is running.
 */
module SearchBar {
  import opened Wrappers
  import opened JsString

  class SearchBar {
    /** The `inputValue` state. */
    var inputValue: string

    constructor ()
      ensures inputValue == ""
    {
      inputValue := "";
    }

    /** The input's `onChange`: typing replaces the value, unless the input
        is disabled. */
    method Type(value: string, isLoading: bool)
      modifies this
      ensures inputValue == if isLoading then old(inputValue) else value
    {
      if !isLoading {
        inputValue := value;
      }
    }

    /** `handleSubmit`: the city passed to `onSearch`, or `None` when it is
        not called. The input keeps what was typed. */
    method HandleSubmit() returns (searched: Option<string>)
      ensures searched.None? <==> AllWhitespace(inputValue)
      ensures searched.Some? ==> searched.value == Trim(inputValue)
      ensures searched.Some? ==> searched.value != "" && IsTrimmed(searched.value)
    {
      var trimmed := Trim(inputValue);
      if trimmed != "" {
        searched := Some(trimmed);
      } else {
        searched := None;
      }
    }

    /** Submitting the form: a disabled button cannot submit it. */
    method Submit(isLoading: bool) returns (searched: Option<string>)
      ensures isLoading ==> searched.None?
      ensures !isLoading ==> (searched.None? <==> AllWhitespace(inputValue))
      ensures searched.Some? ==> searched.value == Trim(inputValue) && searched.value != ""
    {
      if isLoading {
        return None;
      }
      searched := HandleSubmit();
    }
  }

  /** What the search bar submits is already trimmed, so trimming it again
      (as the app's blank-input guard does) changes nothing and it is never
      rejected there. */
  lemma SubmittedCityPassesGuard(input: string)
    requires !AllWhitespace(input)
    ensures Trim(Trim(input)) == Trim(input) && Trim(Trim(input)) != ""
  {
    TrimIdempotent(input);
  }
}
