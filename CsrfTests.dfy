/** The CSRF region of the security tests: every action that accepts POST
    must also validate the anti-forgery token (the OWASP recommendation for
    Cross-Site Request Forgery). */
module CsrfTests {
  import opened Linq
  import opened Metadata
  import opened Controllers

  /** An action that trips the rule: marked [HttpPost] but without
      [ValidateAntiForgeryToken] (each test is `GetCustomAttributes(...).Any()`,
      which is HasAttribute). */
  predicate PostWithoutCsrfToken(m: MethodDesc) {
    HasAttribute(m.attrs, HttpPostAttribute) && !HasAttribute(m.attrs, ValidateAntiForgeryTokenAttribute)
  }

  /** The query of the check's foreach, over the action universe. */
  function CsrfOffenders(actions: seq<MethodDesc>): (r: seq<MethodDesc>)
    ensures forall m :: m in r <==> m in actions && PostWithoutCsrfToken(m)
    ensures |r| > 0 ==> exists i :: (0 <= i < |actions| && actions[i] == r[0]
                                     && forall j :: 0 <= j < i ==> !PostWithoutCsrfToken(actions[j]))
  {
    Where(actions, PostWithoutCsrfToken)
  }

  /** Verify_All_Post_ActionMethods_Have_CSRF_Tokens: passes exactly when no
      action is a POST without the token; otherwise it fails at the first
      such action in reflection's order, however many there are. */
  function VerifyAllPostActionMethodsHaveCsrfTokens(t: TypeDesc): (v: Verdict)
    ensures v.Passed? <==> forall m :: m in t.methods && IsAction(m) ==> !PostWithoutCsrfToken(m)
    ensures v.Failed? ==> exists i :: (0 <= i < |ActionMethods(t)| && PostWithoutCsrfToken(ActionMethods(t)[i])
                                       && v == Failed(AssertFailed(CsrfTokenPresent(ActionMethods(t)[i].name)))
                                       && forall j :: 0 <= j < i ==> !PostWithoutCsrfToken(ActionMethods(t)[j]))
  {
    var offenders := CsrfOffenders(ActionMethods(t));
    if |offenders| == 0 then Passed
    else Failed(AssertFailed(CsrfTokenPresent(offenders[0].name)))
  }

  /** Area_Controllers_Methods_Must_Have_CSRF_Token: runs the check above on
      every controller of the area and passes exactly when all of them pass;
      an area with no controllers passes. */
  function AreaControllersMethodsMustHaveCsrfToken(types: seq<TypeDesc>, areaNamespace: Option<string>): (v: Verdict)
    ensures v.Passed? <==> forall t :: t in types && IsAreaController(t, areaNamespace)
                              ==> VerifyAllPostActionMethodsHaveCsrfTokens(t).Passed?
    ensures v.Failed? ==> exists t :: t in types && IsAreaController(t, areaNamespace)
                              && v == VerifyAllPostActionMethodsHaveCsrfTokens(t)
    ensures v.Failed? ==> var cs := AreaControllers(types, areaNamespace);
                          exists i :: (0 <= i < |cs| && v == VerifyAllPostActionMethodsHaveCsrfTokens(cs[i])
                                       && forall j :: 0 <= j < i ==> VerifyAllPostActionMethodsHaveCsrfTokens(cs[j]).Passed?)
  {
    var controllers := AreaControllers(types, areaNamespace);
    var v := ForEachController(controllers, VerifyAllPostActionMethodsHaveCsrfTokens);
    if v.Passed? then v
    else
      var i :| (0 <= i < |controllers| && v == VerifyAllPostActionMethodsHaveCsrfTokens(controllers[i])
                && forall j :: 0 <= j < i ==> VerifyAllPostActionMethodsHaveCsrfTokens(controllers[j]).Passed?);
      assert controllers[i] in types && IsAreaController(controllers[i], areaNamespace);
      v
  }

  /** Adding a method that is not an offending action, anywhere in the
      type, changes nothing: GET actions, non-action methods and protected
      POST actions never affect the verdict or the action it names. */
  lemma CsrfIgnoresNonOffender(t: TypeDesc, k: nat, m: MethodDesc)
    requires k <= |t.methods|
    requires !(IsAction(m) && PostWithoutCsrfToken(m))
    ensures VerifyAllPostActionMethodsHaveCsrfTokens(t.(methods := t.methods[..k] + [m] + t.methods[k..]))
         == VerifyAllPostActionMethodsHaveCsrfTokens(t)
  {
    var before, after := t.methods[..k], t.methods[k..];
    assert t.methods == before + after;
    assert t.methods[..k] + [m] + t.methods[k..] == (before + [m]) + after;
    WhereAppend(before + [m], after, IsAction);
    WhereAppend(before, [m], IsAction);
    WhereAppend(before, after, IsAction);
    var a1, am, a2 := Where(before, IsAction), Where([m], IsAction), Where(after, IsAction);
    WhereAppend(a1 + am, a2, PostWithoutCsrfToken);
    WhereAppend(a1, am, PostWithoutCsrfToken);
    WhereAppend(a1, a2, PostWithoutCsrfToken);
    assert Where(am, PostWithoutCsrfToken) == [] by {
      if IsAction(m) { assert am == [m]; assert Where([m][1..], PostWithoutCsrfToken) == []; }
    }
  }

  /** A controller with a GET action, a protected POST action and an
      unprotected POST action: the check fails, naming the unprotected one. */
  lemma OneUnprotectedPost()
    ensures VerifyAllPostActionMethodsHaveCsrfTokens(
              TypeDesc("OrdersController", Some("Shop.Areas.Admin.Controllers"), true, true, [], [
                MethodDesc("Index", [], true, true, true, true, []),
                MethodDesc("Create", ["Order"], true, true, true, true, [HttpPost, ValidateAntiForgeryToken]),
                MethodDesc("Delete", ["System.Int32"], true, true, true, true, [HttpPost])]))
         == Failed(AssertFailed(CsrfTokenPresent("Delete")))
  {
    var index := MethodDesc("Index", [], true, true, true, true, []);
    var create := MethodDesc("Create", ["Order"], true, true, true, true, [HttpPost, ValidateAntiForgeryToken]);
    var delete := MethodDesc("Delete", ["System.Int32"], true, true, true, true, [HttpPost]);
    assert !PostWithoutCsrfToken(index);
    assert ValidateAntiForgeryToken in create.attrs;
    assert !PostWithoutCsrfToken(create);
    assert HttpPost in delete.attrs;
    assert PostWithoutCsrfToken(delete);
    var methods := [index, create, delete];
    assert methods[1..] == [create, delete] && methods[1..][1..] == [delete] && [delete][1..] == [];
    assert Where([delete], IsAction) == [delete];
    assert Where([create, delete], IsAction) == [create, delete];
    assert Where(methods, IsAction) == methods;
    assert Where([delete], PostWithoutCsrfToken) == [delete];
    assert Where([create, delete], PostWithoutCsrfToken) == [delete];
    assert CsrfOffenders(methods) == [delete];
  }
}
