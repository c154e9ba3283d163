/** The add box of src/components/CardInputBox.tsx, used by src/TodoApp.tsx:
    a one-field text buffer that hands its trimmed contents to the
    controller on Enter or on blur, unless the contents are blank. */
module CardInputBox {
  import opened Results
  import opened Text

  /** What Enter or blur hands to `onTitleAdded` for a given buffer:
      the trimmed buffer, or nothing when the buffer is blank. */
  function Submission(buffer: string): (emitted: Option<string>)
    ensures emitted.Some? <==> !AllSpace(buffer)
    ensures emitted.Some? ==> emitted.value != [] && IsTrimmed(emitted.value)
    ensures emitted.Some? ==> emitted.value == Trim(buffer)
  {
    if IsBlank(buffer) then None else Some(Trim(buffer))
  }

  /** Every title the box hands over passes the controllers' blank-title
      guard, and trimming it again changes nothing. */
  lemma SubmissionPassesAddGuard(buffer: string)
    requires Submission(buffer).Some?
    ensures !IsBlank(Submission(buffer).value)
    ensures Trim(Submission(buffer).value) == Submission(buffer).value
  {
    TrimIdempotent(buffer);
    TrimmedNonEmptyIsNotBlank(Submission(buffer).value);
  }

  class CardInputBox {
    var title: string

    constructor ()
      ensures title == ""
    {
      title := "";
    }

    /** `handleTitleChange`: the buffer takes the input's value. */
    method HandleTitleChange(value: string)
      modifies this
      ensures title == value
    {
      title := value;
    }

    /** `handleBlur`: a non-blank buffer is handed over trimmed and cleared;
        a blank one is left as it is and nothing is handed over. */
    method HandleBlur() returns (emitted: Option<string>)
      modifies this
      ensures emitted == Submission(old(title))
      ensures title == if emitted.Some? then "" else old(title)
    {
      if !IsBlank(title) {
        emitted := Some(Trim(title));
        title := "";
      } else {
        emitted := None;
      }
    }

    /** `handleKeyPress`: as blur, but only for the Enter key; any other key
        hands nothing over and leaves the buffer alone. */
    method HandleKeyPress(key: string) returns (emitted: Option<string>)
      modifies this
      ensures emitted == if key == "Enter" then Submission(old(title)) else None
      ensures title == if emitted.Some? then "" else old(title)
    {
      if key == "Enter" && !IsBlank(title) {
        emitted := Some(Trim(title));
        title := "";
      } else {
        emitted := None;
      }
    }
  }
}
