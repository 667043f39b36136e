/**
 * The entities of the checklist service layer and the vocabulary shared by
 * every service: nullable values, the outcome of a service call, and
 * Spring's `StringUtils.hasText`.
 */
module Entity {

  /** A Java reference that may be null. */
  datatype Option<T> = None | Some(value: T)

  /**
   * What a service call ends with: the value it returns, or the kind of
   * exception it throws (IllegalArgumentException, ResourceNotFoundException,
   * CategoryServiceException).
   */
  datatype Outcome<T> = Ok(value: T) | ValidationError | NotFound | Conflict
  {
    /** The same failure, as the outcome of a call returning another type. */
    function PropagateError<U>(): Outcome<U>
      requires !Ok?
    {
      match this
      case ValidationError => ValidationError
      case NotFound => NotFound
      case Conflict => Conflict
    }
  }

  /** A `java.time.LocalDate`, counted in days from a fixed epoch; only equality matters here. */
  type Date = int

  /** `Character.isWhitespace`: the Unicode space separators other than the no-break spaces, plus the ASCII controls Java counts as blank. */
  predicate IsWhitespace(c: char)
  {
    || c == ' '
    || ('\t' <= c <= '\r')
    || ('\U{1C}' <= c <= '\U{1F}')
    || c == '\U{1680}'
    || ('\U{2000}' <= c <= '\U{2006}')
    || ('\U{2008}' <= c <= '\U{200A}')
    || c == '\U{2028}'
    || c == '\U{2029}'
    || c == '\U{205F}'
    || c == '\U{3000}'
  }

  /** `StringUtils.hasText`: the string is present and holds a character that is not whitespace. */
  predicate HasText(s: Option<string>)
    ensures HasText(s) ==> s.Some? && |s.value| > 0
    ensures s.Some? && |s.value| > 0 && !IsWhitespace(s.value[0]) ==> HasText(s)
  {
    s.Some? && exists i :: 0 <= i < |s.value| && !IsWhitespace(s.value[i])
  }

  /** `s` without its leading whitespace: what is left starts with a non-blank character, or is empty. */
  function StripLeading(s: string): (t: string)
    ensures |t| <= |s| && t == s[|s| - |t|..]
    ensures t != [] ==> !IsWhitespace(t[0])
    ensures forall i :: 0 <= i < |s| - |t| ==> IsWhitespace(s[i])
  {
    if s == [] then []
    else if IsWhitespace(s[0]) then StripLeading(s[1..])
    else s
  }

  /** A string has text exactly when stripping its leading whitespace leaves something. */
  lemma HasTextIffStripped(s: string)
    ensures HasText(Some(s)) <==> StripLeading(s) != []
  {
  }

  /** A category: its public guid and its name (the surrogate id is left to the store). */
  datatype CategoryEntity = CategoryEntity(guid: Option<string>, name: Option<string>)

  /**
   * A checklist item as its table stores it: every column the service writes,
   * with the category held as a reference (the referenced category's guid)
   * rather than as a copy of the category.
   */
  datatype ChecklistItemRow = ChecklistItemRow(
    guid: string,
    description: Option<string>,
    isCompleted: Option<bool>,
    dateEnd: Option<Date>,
    datePost: Option<Date>,
    categoryGuid: Option<string>)

  /** A checklist item as the persistence layer hands it out, with its category loaded. */
  datatype ChecklistItemEntity = ChecklistItemEntity(
    guid: Option<string>,
    description: Option<string>,
    isCompleted: Option<bool>,
    dateEnd: Option<Date>,
    datePost: Option<Date>,
    category: Option<CategoryEntity>)
}
