/** The add box of src/components/CardInput.tsx, used by
    src/components/TodoTask.tsx: the same one-field buffer as
    src/components/CardInputBox.tsx, handing its trimmed contents to the
    controller on Enter or on blur unless they are blank. */
module CardInput {
  import opened Results
  import opened Text
  import opened CardInputBox

  class CardInput {
    var title: string

    constructor ()
      ensures title == ""
    {
      title := "";
    }

    /** `handleTitleChange`: the buffer takes the input's value. */
    method HandleTitleChange(value: string)
      modifies this
      ensures title == value
    {
      title := value;
    }

    /** `handleBlur`: a non-blank buffer is handed over trimmed and cleared;
        a blank one is left as it is and nothing is handed over. */
    method HandleBlur() returns (emitted: Option<string>)
      modifies this
      ensures emitted == Submission(old(title))
      ensures title == if emitted.Some? then "" else old(title)
    {
      if !IsBlank(title) {
        emitted := Some(Trim(title));
        title := "";
      } else {
        emitted := None;
      }
    }

    /** `handleKeyPress`: as blur, but only for the Enter key; any other key
        hands nothing over and leaves the buffer alone. */
    method HandleKeyPress(key: string) returns (emitted: Option<string>)
      modifies this
      ensures emitted == if key == "Enter" then Submission(old(title)) else None
      ensures title == if emitted.Some? then "" else old(title)
    {
      if key == "Enter" && !IsBlank(title) {
        emitted := Some(Trim(title));
        title := "";
      } else {
        emitted := None;
      }
    }
  }
}
