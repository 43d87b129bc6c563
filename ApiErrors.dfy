/**
 * The user-facing message that `handleApiError` chooses for an error thrown
 * by the Designer API (webflow-api.ts, lines 27-52).
 */
module ApiErrors {
  import opened Wrappers

  /**
   * What `handleApiError` reads of a thrown error: `error.cause.tag` and
   * `error.message`. `None` is a missing field (or a missing `error` or
   * `error.cause`).
   */
  datatype HostError = HostError(tag: Option<string>, message: Option<string>)

  /** JavaScript truthiness of an optional string field. */
  predicate Present(s: Option<string>) {
    s.Some? && s.value != ""
  }

  // The longer messages are written as two literals: the verifier reads the
  // characters of a short literal but not of a long one.
  const GenericMessage := "An unexpected error occurred." + " Please try again."
  const DuplicateMessage := "A variable with this name already exists." + " Please choose a unique name."
  const MissingMessage := "The requested item " + "(e.g., element, style, or variable) could not be found."
  const InvalidTargetMessage := "The selected element " + "is not valid for this operation."
  const ForbiddenMessage := "Permission denied." + " Ensure you are in Design Mode on the Main Branch."
  const FallbackPrefix := "An error occurred: "

  /** The tags the `switch` names, with their fixed messages. */
  function KnownMessage(tag: string): Option<string> {
    match tag
    case "DuplicateValue" => Some(DuplicateMessage)
    case "ResourceMissing" => Some(MissingMessage)
    case "InvalidTargetElement" => Some(InvalidTargetMessage)
    case "Forbidden" => Some(ForbiddenMessage)
    case _ => None
  }

  /** The message `handleApiError` passes to `webflow.notify`. */
  function UserMessage(e: HostError): (m: string)
    ensures |m| > 0
  {
    if !Present(e.tag) then GenericMessage
    else match KnownMessage(e.tag.value)
      case Some(fixed) => fixed
      case None =>
        if Present(e.message) then e.message.value else FallbackPrefix + e.tag.value
  }

  /**
   * Reads a tag back out of a user message: the tag whose fixed message it is,
   * or the text after the fallback prefix.
   */
  function RecoverTag(m: string): Option<string> {
    if m == DuplicateMessage then Some("DuplicateValue")
    else if m == MissingMessage then Some("ResourceMissing")
    else if m == InvalidTargetMessage then Some("InvalidTargetElement")
    else if m == ForbiddenMessage then Some("Forbidden")
    else if |FallbackPrefix| <= |m| && m[..|FallbackPrefix|] == FallbackPrefix then Some(m[|FallbackPrefix|..])
    else None
  }

  /**
   * Whenever the message is chosen from the tag alone (a known tag, or an
   * unknown tag on an error without a message of its own), the tag can be
   * read back from it; an error without a tag yields a message naming no tag.
   */
  lemma RecoverTagOfUserMessage(e: HostError)
    requires !Present(e.tag) || KnownMessage(e.tag.value).Some? || !Present(e.message)
    ensures Present(e.tag) ==> RecoverTag(UserMessage(e)) == e.tag
    ensures !Present(e.tag) ==> RecoverTag(UserMessage(e)) == None
  {
    var m := UserMessage(e);
    if Present(e.tag) && KnownMessage(e.tag.value).None? {
      assert m == FallbackPrefix + e.tag.value;
      assert m[..|FallbackPrefix|] == FallbackPrefix;
      assert m[1] == FallbackPrefix[1] == 'n';
      assert DuplicateMessage[1] == ' ' && MissingMessage[1] == 'h';
      assert InvalidTargetMessage[1] == 'h' && ForbiddenMessage[1] == 'e';
      assert m[|FallbackPrefix|..] == e.tag.value;
    } else if !Present(e.tag) {
      assert m == GenericMessage;
      assert GenericMessage[..|FallbackPrefix|] != FallbackPrefix by {
        assert GenericMessage[3] != FallbackPrefix[3];
      }
    }
  }

  /**
   * For the four tags the `switch` names, the error's own message never
   * reaches the user, and the message differs from the generic one.
   */
  lemma KnownTagIgnoresErrorMessage(t: string, m1: Option<string>, m2: Option<string>)
    requires KnownMessage(t).Some?
    ensures UserMessage(HostError(Some(t), m1)) == UserMessage(HostError(Some(t), m2))
    ensures UserMessage(HostError(Some(t), m1)) != GenericMessage
  {
  }
}
