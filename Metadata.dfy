/** What reflection tells the checks about a compiled web application, as
    plain values, and the outcomes a check can have. */
module Metadata {

  datatype Option<T> = None | Some(value: T)

  /** The attribute classes the checks ask for by `typeof(...)`. */
  datatype AttrKind =
    | HttpPostAttribute
    | ValidateAntiForgeryTokenAttribute
    | AuthorizeAttribute
    | ArayePermissionAttribute
    | ArayeActionPermissionAttribute
    | NonActionAttribute

  /** One attribute instance on a controller or an action.  `Authorize`
      carries the value of `AuthorizeAttribute.Roles`, a comma-separated role
      list (that property never yields null: an unset list reads as ""). */
  datatype Attr =
    | HttpPost
    | ValidateAntiForgeryToken
    | Authorize(roles: string)
    | ArayePermission
    | ArayeActionPermission
    | NonAction
  {
    function Kind(): AttrKind {
      match this
      case HttpPost => HttpPostAttribute
      case ValidateAntiForgeryToken => ValidateAntiForgeryTokenAttribute
      case Authorize(_) => AuthorizeAttribute
      case ArayePermission => ArayePermissionAttribute
      case ArayeActionPermission => ArayeActionPermissionAttribute
      case NonAction => NonActionAttribute
    }
  }

  /** A method as reflection reports it.  `declaredOnType` is false for a
      method inherited from a base class; `returnsActionResult` says whether
      `typeof(ActionResult).IsAssignableFrom(ReturnType)` holds; `attrs` is
      what `GetCustomAttributes(..., true)` sees, inherited attributes
      included. */
  datatype MethodDesc = MethodDesc(
    name: string,
    paramTypes: seq<string>,
    isPublic: bool,
    isInstance: bool,
    declaredOnType: bool,
    returnsActionResult: bool,
    attrs: seq<Attr>)

  /** A type of the application's assembly.  `ns` is `Type.Namespace`
      (None for the global namespace); `isControllerSubclass` says whether
      `IsSubclassOf(typeof(Controller))` holds (a strict, possibly indirect,
      subclass); `methods` lists every method reflection can see on the type,
      inherited and non-public ones included. */
  datatype TypeDesc = TypeDesc(
    name: string,
    ns: Option<string>,
    isClass: bool,
    isControllerSubclass: bool,
    attrs: seq<Attr>,
    methods: seq<MethodDesc>)

  /** Which assertion of the checks failed; a failing CSRF or permission
      check names the action it stopped at. */
  datatype Assertion =
    | AuthorizePresent
    | ArayePermissionPresent
    | RolesEqual
    | RolesContained
    | CsrfTokenPresent(action: string)
    | ActionPermissionPresent(action: string)

  /** The exceptions a check can end with: a failed test assertion, or the
      NullReferenceException of using a method that was not found. */
  datatype Fault = AssertFailed(assertion: Assertion) | NullReference

  /** Outcome of a check that returns nothing. */
  datatype Verdict = Passed | Failed(fault: Fault)

  /** Outcome of a check that returns a value. */
  datatype Outcome<T> = Returned(value: T) | Raised(fault: Fault)
}
