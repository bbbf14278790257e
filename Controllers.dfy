/** The reflection queries the checks share: attribute lookup, the universe of
    action methods, the controllers of an area, overload lookup, and the
    `foreach` that runs one check on every controller and stops at the first
    exception. */
module Controllers {
  import opened Linq
  import opened Metadata

  /** Is an attribute of kind `k` present? */
  predicate HasAttribute(attrs: seq<Attr>, k: AttrKind) {
    exists a :: a in attrs && a.Kind() == k
  }

  /** `a` is the first attribute of kind `k` in `attrs`. */
  predicate FirstOfKind(attrs: seq<Attr>, k: AttrKind, a: Attr) {
    exists i :: (0 <= i < |attrs| && attrs[i] == a && a.Kind() == k
                 && forall j :: 0 <= j < i ==> attrs[j].Kind() != k)
  }

  /** Only one attribute can be the first of its kind. */
  lemma FirstOfKindUnique(attrs: seq<Attr>, k: AttrKind, a: Attr)
    requires FirstOfKind(attrs, k, a)
    ensures forall b :: FirstOfKind(attrs, k, b) ==> b == a
  {
    forall b | FirstOfKind(attrs, k, b) ensures b == a {
      var i :| 0 <= i < |attrs| && attrs[i] == a && a.Kind() == k
               && forall j :: 0 <= j < i ==> attrs[j].Kind() != k;
      var i' :| 0 <= i' < |attrs| && attrs[i'] == b && b.Kind() == k
               && forall j :: 0 <= j < i' ==> attrs[j].Kind() != k;
      assert !(i < i') && !(i' < i);
    }
  }

  /** GetCustomAttributes(typeof(k), true), over the attributes reflection
      reports for the subject. */
  function GetCustomAttributes(attrs: seq<Attr>, k: AttrKind): (r: seq<Attr>)
    ensures |r| > 0 <==> HasAttribute(attrs, k)
    ensures forall a :: a in r ==> a.Kind() == k
    ensures |r| > 0 ==> FirstOfKind(attrs, k, r[0])
  {
    Where(attrs, (a: Attr) => a.Kind() == k)
  }

  /** Membership in the action universe: public, instance, declared on this
      type, and returning something assignable to ActionResult. */
  predicate IsAction(m: MethodDesc) {
    m.isPublic && m.isInstance && m.declaredOnType && m.returnsActionResult
  }

  /** GetMethods(Public | Instance | DeclaredOnly) filtered to ActionResult
      return types, in reflection's order. */
  function ActionMethods(t: TypeDesc): (r: seq<MethodDesc>)
    ensures forall m :: m in r <==> m in t.methods && IsAction(m)
  {
    Where(t.methods, IsAction)
  }

  /** The type filter of the area checks: a class, in exactly the area's
      namespace, strictly derived from Controller. */
  predicate IsAreaController(t: TypeDesc, areaNamespace: Option<string>) {
    t.isClass && t.ns == areaNamespace && t.isControllerSubclass
  }

  /** The controllers of an area among the assembly's types, in order. */
  function AreaControllers(types: seq<TypeDesc>, areaNamespace: Option<string>): (r: seq<TypeDesc>)
    ensures forall t :: t in r <==> t in types && IsAreaController(t, areaNamespace)
  {
    Where(types, (t: TypeDesc) => IsAreaController(t, areaNamespace))
  }

  /** Does `m` answer Type.GetMethod(name, parameterTypes)?  That lookup
      searches Public | Instance | Static without FlattenHierarchy: it sees
      public instance methods, inherited or not, and public static methods
      declared on the type itself, but never an inherited static method.
      The name and the parameter type list must match exactly. */
  predicate MatchesSignature(m: MethodDesc, name: string, parameterTypes: seq<string>) {
    m.isPublic && (m.isInstance || m.declaredOnType) && m.name == name && m.paramTypes == parameterTypes
  }

  /** Type.GetMethod(name, parameterTypes): the matching method, or None
      where reflection returns null. */
  function GetMethod(t: TypeDesc, name: string, parameterTypes: seq<string>): (r: Option<MethodDesc>)
    ensures r.None? <==> forall m :: m in t.methods ==> !MatchesSignature(m, name, parameterTypes)
    ensures r.Some? ==> r.value in t.methods && MatchesSignature(r.value, name, parameterTypes)
    ensures r.Some? ==> exists i :: (0 <= i < |t.methods| && t.methods[i] == r.value
                                     && forall j :: 0 <= j < i ==> !MatchesSignature(t.methods[j], name, parameterTypes))
  {
    var found := Where(t.methods, (m: MethodDesc) => MatchesSignature(m, name, parameterTypes));
    if |found| == 0 then None else Some(found[0])
  }

  /** `foreach (var c in controllers) check(c);` where a check that throws
      ends the loop with its exception. */
  function ForEachController(controllers: seq<TypeDesc>, check: TypeDesc -> Verdict): (v: Verdict)
    ensures v.Passed? <==> forall c :: c in controllers ==> check(c).Passed?
    ensures v.Failed? ==> exists i :: (0 <= i < |controllers| && v == check(controllers[i])
                                       && forall j :: 0 <= j < i ==> check(controllers[j]).Passed?)
  {
    if |controllers| == 0 then Passed
    else
      var first := check(controllers[0]);
      if first.Failed? then first
      else
        var rest := ForEachController(controllers[1..], check);
        assert forall c :: c in controllers <==> c == controllers[0] || c in controllers[1..];
        assert rest.Failed? ==> exists i :: (1 <= i < |controllers| && rest == check(controllers[i])
                                             && forall j :: 1 <= j < i ==> check(controllers[j]).Passed?);
        rest
  }
}
