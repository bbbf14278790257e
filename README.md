# Araye security-attribute checks, modelled in Dafny

Araye.CommonTests ships reusable MSTest checks. They inspect an ASP.NET MVC
application's controllers through reflection and assert that its security
attributes are present and consistent. This project models the checks in
`Security/Tests.cs`:

- **CSRF rule.** Every action that accepts POST (`[HttpPost]`) must carry
  `[ValidateAntiForgeryToken]`. The check runs on one controller or on every
  controller of an area.
- **Authorization rule.** A controller or an action must carry `[Authorize]`.
  When the test lists the roles it expects, the attribute's `Roles` list must
  match them. A controller must match them exactly, up to order and white
  space. An action only has to list a subset of them.
- **Permission rule.** A controller must carry the application's
  `[ArayePermission]`. Every action must carry `[ArayeActionPermission]`
  unless it is marked `[NonAction]`.

Reflection is replaced by plain values (module `Metadata`):

- a `TypeDesc` per type of the assembly;
- a `MethodDesc` per method reflection sees on it;
- a closed `Attr` variant per attribute instance.

Each flag on a descriptor is a precomputed reflection answer: `IsClass`,
`IsSubclassOf(typeof(Controller))`, `IsAssignableFrom(ReturnType)`, and so on.
Attribute lists are what `GetCustomAttributes(…, true)` returns, so inherited
attributes are already included.

Every check is a pure function. A check returns a `Verdict` or an `Outcome`.
An exception becomes a `Fault`, which is one of two things:

- `AssertFailed(which assertion)`. For a CSRF or permission failure, it also
  names the action where the check stopped. That name stands in for the
  trace line the source writes.
- `NullReference`, the exception raised when the requested action overload
  does not exist.

Modules:

- `Linq`: `Where`/`Select`/`All` over sequences.
- `Text`: .NET `String.Split(char)` and `String.Trim()`. White space is
  exactly `Char.IsWhiteSpace`.
- `Ordering`: `OrderBy` under ordinal order, and the proof that sorting both
  lists and comparing them decides multiset equality.
- `Controllers`: the reflection queries the checks share.
- `CsrfTests`, `AuthorizeTests`, `ArayeTests`: the three regions of the
  source file.

Points of the code's behaviour that are easy to misread:

- A failing check stops at the first offending action or controller, because
  the code throws from inside its `foreach` loops
  (`Security/Tests.cs:30-33, 44-48, 145-152`).
- The role checks assert that `[Authorize]` is present before the early
  return for an empty list of expected roles. An empty list therefore still
  fails when the attribute is missing.
- A controller may carry any number of `[Authorize]` attributes. The first
  one is used.
- The `authorizeAttribute == null` branches can never be taken. The attribute
  came from a lookup by that same type, so it is never null. They have no
  counterpart in the model.

## Model

| member | source | states |
|---|---|---|
| `Controllers.GetCustomAttributes` | Security/Tests.cs:71-73 | the attribute list is non-empty iff an attribute of the kind is present; its first element is the first attribute of that kind |
| `Controllers.ActionMethods` | Security/Tests.cs:40-42 | the action universe is exactly the public, instance, declared-only methods whose return type is assignable to ActionResult |
| `Controllers.AreaControllers` | Security/Tests.cs:26-29 | the selected types are exactly the classes whose namespace equals the area namespace and that strictly subclass Controller |
| `Controllers.GetMethod` | Security/Tests.cs:79 | lookup gives None iff no public method that is an instance method or declared on the type itself (never an inherited static one) has that name and exactly that parameter-type list; otherwise it gives the first such method |
| `Controllers.ForEachController` | Security/Tests.cs:30-33 | the loop passes iff every controller passes; otherwise it ends with the failure of the first controller that fails |
| `CsrfTests.CsrfOffenders` | Security/Tests.cs:44 | the query keeps exactly the actions with [HttpPost] and without [ValidateAntiForgeryToken]; its first element is the first such action |
| `CsrfTests.VerifyAllPostActionMethodsHaveCsrfTokens` | Security/Tests.cs:37-49 | fails iff some action is a POST without the token, and then fails at the first such action; the verdict does not depend on how many offenders there are |
| `CsrfTests.AreaControllersMethodsMustHaveCsrfToken` | Security/Tests.cs:24-34 | passes iff the CSRF check passes on every selected controller (so an empty area passes); a failure is the failure of the first selected controller that fails, all earlier ones passing |
| `CsrfTests.CsrfIgnoresNonOffender` | Security/Tests.cs:40-48 | inserting a non-action, a non-POST action or a protected POST action anywhere leaves the verdict unchanged, including the action it names |
| `CsrfTests.OneUnprotectedPost` | Security/Tests.cs:44-48 | a controller with a GET, a protected POST and an unprotected POST fails, naming the unprotected action |
| `AuthorizeTests.OrderedRolesEqual` | Security/Tests.cs:98-103 | sorting the trimmed comma-split tokens and the trimmed expected roles and comparing them element by element is equivalent to multiset equality |
| `AuthorizeTests.AllRolesContained` | Security/Tests.cs:121 | the All test holds iff every trimmed declared token is an element of the untrimmed expected roles |
| `AuthorizeTests.ControllerMustHaveAuthorizationAttribute` | Security/Tests.cs:69-74 | returns iff [Authorize] is present (inherited ones count), and then returns the first one; otherwise it fails the presence assertion |
| `AuthorizeTests.ActionMustHaveAuthorizationAttribute` | Security/Tests.cs:77-83 | raises NullReference iff no overload has that name and those parameter types; otherwise returns the overload's first [Authorize], or fails the presence assertion |
| `AuthorizeTests.MustHaveRequireAuthorization` | Security/Tests.cs:86-105 | fails without [Authorize] even for empty expected roles; passes for empty roles; otherwise passes iff the trimmed tokens and the trimmed roles are equal multisets |
| `AuthorizeTests.MustRequireAuthorization` | Security/Tests.cs:108-123 | a missing overload raises NullReference; without [Authorize] it fails; with empty roles it passes; otherwise it passes iff every trimmed declared token is one of the expected roles |
| `AuthorizeTests.CertainRolesHaveAccessToAreaControllers` | Security/Tests.cs:56-66 | passes iff the controller-level role check passes on every selected controller; a failure is that of the first selected controller that fails, all earlier ones passing |
| `AuthorizeTests.ControllerRolesIgnoreOrder` | Security/Tests.cs:101-103 | permuting the expected roles never changes the controller-level verdict |
| `AuthorizeTests.ControllerRolesIgnorePadding` | Security/Tests.cs:101 | padding the expected roles with white space never changes the controller-level verdict |
| `AuthorizeTests.RoleTokensOfJoin` | Security/Tests.cs:98-99 | a Roles list made by joining comma-free names with commas yields exactly those names, trimmed |
| `AuthorizeTests.EmptyRolesList` | Security/Tests.cs:98 | an empty Roles list is one empty token; it matches at controller level only when the roles trim to a single "", and at action level only when "" is expected |
| `AuthorizeTests.ExactMatchImpliesContainment` | Security/Tests.cs:121 | when the expected roles are already trimmed, passing the controller-level comparison implies passing the action-level one |
| `AuthorizeTests.FewerDeclaredRoles` | Security/Tests.cs:121-122 | declared "admin" against expected {"admin","editor"} passes containment but fails equality |
| `AuthorizeTests.ExtraDeclaredRole` | Security/Tests.cs:98-104 | declared "admin, owner" against expected {"admin"} fails both comparisons |
| `AuthorizeTests.ActionLevelDoesNotTrimExpectedRoles` | Security/Tests.cs:101 | an expected role " admin" matches declared "admin" at controller level but not at action level, because only the declared side is trimmed there |
| `AuthorizeTests.NoExpectedRoles` | Security/Tests.cs:88-92 | with no expected roles, each check passes iff its [Authorize] is present (and, at action level, the overload exists) |
| `AuthorizeTests.ActionMayNarrow` | Security/Tests.cs:108-122 | an action marked "admin", checked against {"admin","editor"}, passes |
| `AuthorizeTests.ControllerMayNotNarrow` | Security/Tests.cs:86-104 | a controller marked "admin", checked against {"admin","editor"}, fails the role assertion |
| `AuthorizeTests.MissingOverloadIsNullReference` | Security/Tests.cs:79-80 | asking for an overload that does not exist raises NullReference whatever roles are expected |
| `AuthorizeTests.InheritedStaticIsNotFound` | Security/Tests.cs:79-80 | a public static method inherited from a base class is not found by the lookup, so the action check raises NullReference whatever roles are expected |
| `ArayeTests.ControllerMustHaveArayePermissionAttribute` | Security/Tests.cs:130-135 | returns iff [ArayePermission] is present, and then returns the first one; otherwise it fails the presence assertion |
| `ArayeTests.PermissionOffenders` | Security/Tests.cs:145-147 | the loop filter and its inner test together select exactly the actions with neither [ArayeActionPermission] nor [NonAction], first offender first |
| `ArayeTests.VerifyAllActionMethodsHaveArayeActionPermissionAttribute` | Security/Tests.cs:138-153 | fails iff some action has neither attribute, and then fails at the first such action |
| `ArayeTests.NonActionIsExempt` | Security/Tests.cs:147 | inserting a [NonAction] method anywhere never changes the verdict |
| `Text.SplitCount` | Security/Tests.cs:98 | Split always yields one piece more than there are commas, so "" yields one empty piece |
| `Text.SplitPiecesHaveNoSeparator` | Security/Tests.cs:98 | no piece of a split contains the separator |
| `Text.JoinSplit` | Security/Tests.cs:98 | joining the pieces with the separator gives the original string |
| `Text.SplitJoin` | Security/Tests.cs:121 | splitting a join of separator-free parts gives the parts back |
| `Text.TrimIsCore` | Security/Tests.cs:99 | Trim returns a slice that has only white space around it and that neither starts nor ends with white space |
| `Text.TrimStartIsSuffix` | Security/Tests.cs:99 | TrimStart keeps a suffix that does not start with white space, and cuts off only white space |
| `Text.TrimEndIsPrefix` | Security/Tests.cs:99 | TrimEnd keeps a prefix that does not end with white space, and cuts off only white space |
| `Text.TrimIdempotent` | Security/Tests.cs:101 | trimming twice is trimming once |
| `Text.TrimIgnoresPadding` | Security/Tests.cs:121 | white space added around a string never survives Trim |
| `Ordering.OrderBy` | Security/Tests.cs:100 | the result is sorted and is a permutation of the input |
| `Ordering.SortedUnique` | Security/Tests.cs:102-103 | two sorted sequences with the same multiset are equal |
| `Ordering.OrderByEqualIffSameMultiset` | Security/Tests.cs:98-103 | two lists give equal sorted sequences iff they are equal as multisets |
| `Linq.Where` | Security/Tests.cs:41-44 | keeps exactly the elements that satisfy the predicate and is no longer than its input; its first element is the first input element that satisfies the predicate |
| `Linq.Select` | Security/Tests.cs:99-101 | the result has the input's length, and its element i is the function applied to input element i |
| `Text.Split` | Security/Tests.cs:98 | a split always yields at least one piece |
| `AuthorizeTests.RoleTokens` | Security/Tests.cs:98-99 | the trimmed pieces of a Roles list: there is always at least one token, even for an empty list |
| `Linq.All` | Security/Tests.cs:121 | All holds iff every element satisfies the predicate, so it holds of an empty sequence |

## Left out

- `Validation/Tests.cs` is not part of this model. It wraps the
  DataAnnotations `Validator.TryValidateObject`, whose rule evaluation is
  foreign code. It discards the result of its `IValidatableObject.Validate`
  call. Its three helpers only compare the validator's count or messages.
- Reflection itself is not modelled: `Assembly.GetTypes`, attribute
  inheritance in `GetCustomAttributes(…, true)`, `IsSubclassOf` and
  `IsAssignableFrom`. Their answers are fields of the descriptors. The
  assembly's types are a parameter, not looked up from `testController`.
- `Controllers.GetMethod`: parameter types are matched by exact equality of
  their names. The default binder behind `Type.GetMethod(string, Type[])`
  is more lenient: an `object` parameter accepts any requested type, a
  reference-type parameter accepts a requested subtype, and a primitive
  parameter accepts a primitive that widens to it (`Edit(long)` is found for
  `typeof(int)`). Where only such a looser match exists, the model raises
  NullReference and the source goes on to check the found method. When
  several public methods match, the model takes the first in the
  descriptor's list. Reflection would pick the most derived method or throw
  `AmbiguousMatchException`.
- `Metadata.Attr.Kind`: the six attribute classes are taken to be unrelated,
  so a lookup by one class never returns an instance of another.
  `GetCustomAttributes(typeof(AuthorizeAttribute), true)` also returns
  instances of subclasses. If `ArayePermissionAttribute` or
  `ArayeActionPermissionAttribute` derives from `AuthorizeAttribute`, a
  controller or action that carries only that attribute passes the
  `[Authorize]` presence checks in the source, and its `Roles` are compared.
  The model fails it with `AuthorizePresent`. Those classes are in
  `Araye.Code.Security`, which is not part of this model.
- Null arguments are not modelled. A null `roles` array, role string, method
  name or parameter array raises an exception in the source. So does a null
  element of `roles` at controller level, where `t.Trim()` is called on it
  (`Security/Tests.cs:101`); at action level a null element is only compared
  (`Security/Tests.cs:121`) and is harmless. Dafny sequences and strings
  cannot be null.
- `ArayeTests.PermissionOffenders`: the `None()` extension method
  (`Security/Tests.cs:145, 147`) comes from `Araye.Code.Extensions`, which is
  not part of this model. It is read as `!Any()`, that is, as the absence of
  the attribute.
- `Trace.WriteLine` diagnostics and the message strings of `Assert.IsTrue`
  are left out. Only which assertion failed and, for the two per-action
  rules, the action's name are kept.
- `Ordering.OrderBy` uses ordinal code-point order, not the culture-sensitive
  `Comparer<string>.Default`. This does not change any verdict as long as the
  culture order only treats identical strings as equal. `Enumerable.OrderBy`
  is stable, so a culture that ties two distinct strings keeps them in input
  order. Two lists with the same multiset can then sort into different
  sequences, and the ordinal `SequenceEqual` rejects them. So the source can
  reject role lists that this model accepts. The reverse cannot happen under
  any comparer. If the two sorted lists are equal, each is a permutation of
  its input, so the two inputs are equal multisets.
- `Text.IsWhiteSpace` is the current `Char.IsWhiteSpace` set. Older Unicode
  tables also counted U+180E.
- `ArayeTests.ControllerMustHaveArayePermissionAttribute` returns the
  `[ArayePermission]` attribute itself. The source casts it to
  `AuthorizeAttribute`. Whether that cast yields null depends on the
  external `ArayePermissionAttribute` class, which is not visible.
