/**
 * ScannerFramework: the route table built from annotated controller classes,
 * and the binder that turns a request into the argument list of a handler.
 * Reflection is replaced by plain descriptors: a class is a ClassInfo, a Java
 * method a MethodInfo with its route annotations, a parameter a ParamInfo, a
 * Java type a JType, and a request its parameter map (name to submitted values).
 */
module Scanner {
  import opened Wrappers
  import opened JavaText
  import PatternMatcher

  // ---------------------------------------------------------------------
  // Route table
  // ---------------------------------------------------------------------

  /** @UrlMapping(value = template, method = verb). */
  datatype UrlMapping = UrlMapping(value: string, verb: string)

  /**
   * The route annotations present on one Java method. Java annotations of one
   * type are not repeatable here, so each kind is either absent or present once.
   */
  datatype Annotations = Annotations(
    urlMapping: Option<UrlMapping>,
    urlGet: Option<string>,
    urlPost: Option<string>,
    json: bool)

  datatype MethodInfo = MethodInfo(name: string, annotations: Annotations)

  /** A class the scan loads: its name, whether it carries @Controller, and whether its no-argument constructor succeeds. */
  datatype ClassInfo = ClassInfo(name: string, isController: bool, instantiable: bool, methods: seq<MethodInfo>)

  /** The java.lang.reflect.Method stored in the table: the declaring class and the method. */
  datatype HandlerRef = HandlerRef(className: string, methodName: string)

  /** The controller object the scan creates; only its class is observable here. */
  datatype ControllerInstance = ControllerInstance(className: string)

  /** urlMappings: template, then HTTP verb, to handler. */
  type RouteTable = map<string, map<string, HandlerRef>>

  /**
   * The (template, verb) the if/else-if chain of processClass registers a
   * method under, or None when it registers nothing. The fifth branch repeats
   * the first branch's test and so can never be taken.
   */
  function RouteOf(a: Annotations): Option<(string, string)> {
    if a.urlMapping.Some? then Some((a.urlMapping.value.value, a.urlMapping.value.verb))
    else if a.urlGet.Some? then Some((a.urlGet.value, "GET"))
    else if a.urlPost.Some? then Some((a.urlPost.value, "POST"))
    else if a.json then None
    else if a.urlMapping.Some? then assert false; None
    else None
  }

  function Lookup(table: RouteTable, template: string, verb: string): Option<HandlerRef> {
    if template in table && verb in table[template] then Some(table[template][verb]) else None
  }

  /** `computeIfAbsent(template, new HashMap).put(verb, h)`. */
  function Put(table: RouteTable, template: string, verb: string, h: HandlerRef): (t: RouteTable)
    ensures t.Keys == table.Keys + {template}
    ensures Lookup(t, template, verb) == Some(h)
  {
    var inner := if template in table then table[template] else map[];
    table[template := inner[verb := h]]
  }

  /** The table after registering one method. */
  function Register(table: RouteTable, className: string, m: MethodInfo): RouteTable {
    match RouteOf(m.annotations)
    case None => table
    case Some((template, verb)) => Put(table, template, verb, HandlerRef(className, m.name))
  }

  /** The table after registering the methods in order. */
  function RegisterAll(table: RouteTable, className: string, ms: seq<MethodInfo>): RouteTable {
    if |ms| == 0 then table
    else Register(RegisterAll(table, className, ms[..|ms| - 1]), className, ms[|ms| - 1])
  }

  /** The handler of the last method in ms registered under (template, verb), if any. */
  function LastRegistrant(className: string, ms: seq<MethodInfo>, template: string, verb: string): Option<HandlerRef> {
    if |ms| == 0 then None
    else if RouteOf(ms[|ms| - 1].annotations) == Some((template, verb)) then Some(HandlerRef(className, ms[|ms| - 1].name))
    else LastRegistrant(className, ms[..|ms| - 1], template, verb)
  }

  /** The templates ms registers under. */
  function Templates(ms: seq<MethodInfo>): set<string> {
    set i | 0 <= i < |ms| && RouteOf(ms[i].annotations).Some? :: RouteOf(ms[i].annotations).value.0
  }

  class ScannerFramework {
    var urlMappings: RouteTable
    var controllers: map<string, ControllerInstance>

    constructor ()
      ensures urlMappings == map[] && controllers == map[]
    {
      urlMappings := map[];
      controllers := map[];
    }

    /** One step of the loop over getDeclaredMethods: the if/else-if chain. */
    method RegisterMethod(className: string, m: MethodInfo)
      modifies this`urlMappings
      ensures urlMappings == Register(old(urlMappings), className, m)
    {
      var a := m.annotations;
      var h := HandlerRef(className, m.name);
      if a.urlMapping.Some? {
        AddRoute(a.urlMapping.value.value, a.urlMapping.value.verb, h);
      } else if a.urlGet.Some? {
        AddRoute(a.urlGet.value, "GET", h);
      } else if a.urlPost.Some? {
        AddRoute(a.urlPost.value, "POST", h);
      } else if a.json {
        // a marker only: the route comes from one of the other annotations
      } else if a.urlMapping.Some? {
        assert false;
      }
    }

    method AddRoute(template: string, verb: string, h: HandlerRef)
      modifies this`urlMappings
      ensures urlMappings == Put(old(urlMappings), template, verb, h)
    {
      var inner := if template in urlMappings then urlMappings[template] else map[];
      urlMappings := urlMappings[template := inner[verb := h]];
    }

    /**
     * processClass for a class the class loader found. A @Controller class whose
     * constructor succeeds gets one instance under its name and all its methods
     * registered in order; a failing constructor is caught and changes nothing.
     */
    method ProcessClass(c: ClassInfo)
      modifies this
      ensures c.isController && c.instantiable ==>
                controllers == old(controllers)[c.name := ControllerInstance(c.name)] &&
                urlMappings == RegisterAll(old(urlMappings), c.name, c.methods)
      ensures !(c.isController && c.instantiable) ==>
                controllers == old(controllers) && urlMappings == old(urlMappings)
    {
      if c.isController && c.instantiable {
        controllers := controllers[c.name := ControllerInstance(c.name)];
        for i := 0 to |c.methods|
          invariant controllers == old(controllers)[c.name := ControllerInstance(c.name)]
          invariant urlMappings == RegisterAll(old(urlMappings), c.name, c.methods[..i])
        {
          assert c.methods[..i + 1][..i] == c.methods[..i];
          RegisterMethod(c.name, c.methods[i]);
        }
        assert c.methods[..|c.methods|] == c.methods;
      }
    }

    /** The scan over the class files found, in the order they are found. */
    method Scan(classes: seq<ClassInfo>)
      modifies this
      ensures urlMappings == ScanTable(old(urlMappings), classes)
      ensures controllers == ScanControllers(old(controllers), classes)
    {
      for i := 0 to |classes|
        invariant urlMappings == ScanTable(old(urlMappings), classes[..i])
        invariant controllers == ScanControllers(old(controllers), classes[..i])
      {
        assert classes[..i + 1][..i] == classes[..i];
        ProcessClass(classes[i]);
      }
      assert classes[..|classes|] == classes;
    }
  }

  predicate Registers(c: ClassInfo) {
    c.isController && c.instantiable
  }

  function ScanTable(table: RouteTable, classes: seq<ClassInfo>): RouteTable {
    if |classes| == 0 then table
    else
      var t := ScanTable(table, classes[..|classes| - 1]);
      var c := classes[|classes| - 1];
      if Registers(c) then RegisterAll(t, c.name, c.methods) else t
  }

  function ScanControllers(cs: map<string, ControllerInstance>, classes: seq<ClassInfo>): map<string, ControllerInstance> {
    if |classes| == 0 then cs
    else
      var m := ScanControllers(cs, classes[..|classes| - 1]);
      var c := classes[|classes| - 1];
      if Registers(c) then m[c.name := ControllerInstance(c.name)] else m
  }

  // ---------------------------------------------------------------------
  // Properties of the route table
  // ---------------------------------------------------------------------

  /** The branch chain: UrlMapping first, then UrlGet as GET, then UrlPost as POST; Json alone registers nothing. */
  lemma RouteOfOrder(a: Annotations)
    ensures a.urlMapping.Some? ==> RouteOf(a) == Some((a.urlMapping.value.value, a.urlMapping.value.verb))
    ensures a.urlMapping.None? && a.urlGet.Some? ==> RouteOf(a) == Some((a.urlGet.value, "GET"))
    ensures a.urlMapping.None? && a.urlGet.None? && a.urlPost.Some? ==> RouteOf(a) == Some((a.urlPost.value, "POST"))
    ensures a.urlMapping.None? && a.urlGet.None? && a.urlPost.None? ==> RouteOf(a) == None
  {
  }

  /** A Put changes exactly one (template, verb) entry; other verbs under the same template are kept. */
  lemma PutLookup(table: RouteTable, template: string, verb: string, h: HandlerRef, t': string, v': string)
    ensures Lookup(Put(table, template, verb, h), t', v') ==
              if t' == template && v' == verb then Some(h) else Lookup(table, t', v')
  {
  }

  /**
   * After registering a class's methods, each (template, verb) entry holds the
   * handler of the last method registered under it, or is as it was before.
   */
  lemma {:induction false} RegisterAllLookup(table: RouteTable, className: string, ms: seq<MethodInfo>, template: string, verb: string)
    ensures Lookup(RegisterAll(table, className, ms), template, verb) ==
              match LastRegistrant(className, ms, template, verb)
              case Some(h) => Some(h)
              case None => Lookup(table, template, verb)
  {
    if |ms| > 0 {
      var prefix := ms[..|ms| - 1];
      RegisterAllLookup(table, className, prefix, template, verb);
      var m := ms[|ms| - 1];
      match RouteOf(m.annotations)
      case None =>
      case Some((t, v)) =>
        PutLookup(RegisterAll(table, className, prefix), t, v, HandlerRef(className, m.name), template, verb);
    }
  }

  /** Registering adds the templates of the routed methods and removes none. */
  lemma {:induction false} RegisterAllKeys(table: RouteTable, className: string, ms: seq<MethodInfo>)
    ensures RegisterAll(table, className, ms).Keys == table.Keys + Templates(ms)
  {
    if |ms| > 0 {
      var prefix := ms[..|ms| - 1];
      RegisterAllKeys(table, className, prefix);
      var m := ms[|ms| - 1];
      assert forall i :: 0 <= i < |prefix| ==> prefix[i] == ms[i];
      match RouteOf(m.annotations)
      case None =>
        assert Templates(ms) == Templates(prefix);
      case Some((t, v)) =>
        assert Templates(ms) == Templates(prefix) + {t};
    }
  }

  /** A method carrying only @Json adds no route. */
  lemma JsonOnlyAddsNothing(table: RouteTable, className: string, m: MethodInfo)
    requires m.annotations == Annotations(None, None, None, true)
    ensures Register(table, className, m) == table
  {
  }

  /** The scan keeps one controller instance per registering class, keyed by its name. */
  lemma {:induction false} ScanControllersKeys(cs: map<string, ControllerInstance>, classes: seq<ClassInfo>, name: string)
    ensures name in ScanControllers(cs, classes) <==>
              name in cs || exists i :: 0 <= i < |classes| && Registers(classes[i]) && classes[i].name == name
    ensures name in ScanControllers(cs, classes) && name !in cs ==>
              ScanControllers(cs, classes)[name] == ControllerInstance(name)
  {
    if |classes| > 0 {
      var prefix := classes[..|classes| - 1];
      ScanControllersKeys(cs, prefix, name);
      assert forall i :: 0 <= i < |prefix| ==> prefix[i] == classes[i];
    }
  }

  // ---------------------------------------------------------------------
  // Values and types seen by the binder
  // ---------------------------------------------------------------------

  datatype Prim = PInt | PLong | PDouble | PFloat | PBoolean | PByte | PShort | PChar

  /** A floating-point result, left uninterpreted: zero, or what parseDouble/parseFloat makes of a text. */
  datatype Floating = Zero | ParsedFrom(text: string)

  /** The Java objects the binder produces. */
  datatype Value =
    | Null
    | Str(s: string)
    | IntVal(i: int)
    | LongVal(l: int)
    | DoubleVal(d: Floating)
    | FloatVal(f: Floating)
    | BoolVal(b: bool)
    | MapVal(entries: map<string, Value>)
    | ObjectVal(className: string, fields: map<string, Value>)
    | ArrayVal(elements: seq<Value>)

  /**
   * Java types as the binder tests them. Boxed(p) is java.lang.Integer and the
   * like: none of them has a no-argument constructor. MapType is java.util.Map,
   * with stringToObject true when declared as Map<String, Object>. ClassType is
   * any other class, with its declared fields and whether its no-argument
   * constructor succeeds.
   */
  datatype JType =
    | Primitive(p: Prim)
    | Boxed(b: Prim)
    | StringType
    | MapType(stringToObject: bool)
    | ClassType(name: string, fields: seq<FieldInfo>, instantiable: bool)
    | ArrayType(component: JType)

  /** A declared field: its name, its type, and the value a fresh instance holds. */
  datatype FieldInfo = FieldInfo(name: string, fieldType: JType, initial: Value)

  /** A handler parameter: getName(), isNamePresent(), the @Param value if annotated, and its type. */
  datatype ParamInfo = ParamInfo(name: string, namePresent: bool, hint: Option<string>, paramType: JType)

  /** The request's parameter map: each name with the values submitted for it. */
  type Request = map<string, seq<string>>

  /** request.getParameter(name): the first submitted value, or null. */
  function GetParameter(req: Request, name: string): (r: Option<string>)
    ensures r.Some? <==> name in req && |req[name]| > 0
    ensures r.Some? ==> r.value == req[name][0]
  {
    if name in req && |req[name]| > 0 then Some(req[name][0]) else None
  }

  // ---------------------------------------------------------------------
  // convertValue
  // ---------------------------------------------------------------------

  predicate IsIntType(t: JType) { t == Primitive(PInt) || t == Boxed(PInt) }
  predicate IsLongType(t: JType) { t == Primitive(PLong) || t == Boxed(PLong) }
  predicate IsDoubleType(t: JType) { t == Primitive(PDouble) || t == Boxed(PDouble) }
  predicate IsFloatType(t: JType) { t == Primitive(PFloat) || t == Boxed(PFloat) }
  predicate IsBooleanType(t: JType) { t == Primitive(PBoolean) || t == Boxed(PBoolean) }

  /** The types convertValue converts a text to. */
  predicate IsConvertible(t: JType) {
    t == StringType || IsIntType(t) || IsLongType(t) || IsDoubleType(t) || IsFloatType(t) || IsBooleanType(t)
  }

  /** convertValue: a failed parse is caught and gives null, as does any type it does not handle. */
  function ConvertValue(value: Option<string>, t: JType): (r: Value)
    ensures value.Some? && !IsConvertible(t) ==> r == Null
    ensures value.Some? && IsIntType(t) ==> (r == Null <==> ParseInt(value.value).None?)
    ensures value.Some? && IsLongType(t) ==> (r == Null <==> ParseLong(value.value).None?)
    ensures value.Some? && IsConvertible(t) && !IsIntType(t) && !IsLongType(t) ==> r != Null
  {
    if value.None? then
      if t == Primitive(PInt) then IntVal(0)
      else if t == Primitive(PLong) then LongVal(0)
      else if t == Primitive(PDouble) then DoubleVal(Zero)
      else if t == Primitive(PFloat) then FloatVal(Zero)
      else if t == Primitive(PBoolean) then BoolVal(false)
      else Null
    else
      var v := value.value;
      if t == StringType then Str(v)
      else if IsIntType(t) then (match ParseInt(v) case Some(n) => IntVal(n) case None => Null)
      else if IsLongType(t) then (match ParseLong(v) case Some(n) => LongVal(n) case None => Null)
      else if IsDoubleType(t) then DoubleVal(ParsedFrom(v))
      else if IsFloatType(t) then FloatVal(ParsedFrom(v))
      else if IsBooleanType(t) then BoolVal(EqualsIgnoreCase(v, "true"))
      else Null
  }

  /** A missing value: the zero of the five primitive types, null for everything else (Integer included). */
  lemma ConvertMissing(t: JType)
    ensures ConvertValue(None, t) ==
              match t
              case Primitive(PInt) => IntVal(0)
              case Primitive(PLong) => LongVal(0)
              case Primitive(PDouble) => DoubleVal(Zero)
              case Primitive(PFloat) => FloatVal(Zero)
              case Primitive(PBoolean) => BoolVal(false)
              case _ => Null
    ensures ConvertValue(None, Boxed(PInt)) == Null && ConvertValue(None, StringType) == Null
  {
  }

  /** Boolean conversion is true exactly for "true" in any letter case. */
  lemma ConvertBoolean(v: string, t: JType)
    requires IsBooleanType(t)
    ensures ConvertValue(Some(v), t) == BoolVal(EqualsIgnoreCase(v, "true"))
    ensures ConvertValue(Some(v), t) == BoolVal(true) <==> ToLower(v) == "true"
  {
    assert EqualsIgnoreCase(v, "true") <==> ToLower(v) == "true" by {
      assert ToLower("true") == "true";
      EqualsIgnoreCaseLower(v, "true");
    }
  }

  /** An int parameter written in decimal within the int range is bound to that number. */
  lemma ConvertIntRoundTrip(n: int, t: JType)
    requires IsIntType(t) && INT_MIN <= n <= INT_MAX
    ensures ConvertValue(Some(FormatDecimal(n)), t) == IntVal(n)
  {
    ParseFormat(n);
  }

  /** A decimal number outside the int range, like any unparsable text, converts to null. */
  lemma ConvertIntOverflow(n: int, t: JType)
    requires IsIntType(t) && !(INT_MIN <= n <= INT_MAX)
    ensures ConvertValue(Some(FormatDecimal(n)), t) == Null
  {
    ParseFormat(n);
  }

  lemma ConvertLongRoundTrip(n: int, t: JType)
    requires IsLongType(t) && LONG_MIN <= n <= LONG_MAX
    ensures ConvertValue(Some(FormatDecimal(n)), t) == LongVal(n)
  {
    ParseFormat(n);
  }

  /** An int conversion never yields a value outside the int range. */
  lemma ConvertIntInRange(v: Option<string>, t: JType)
    requires IsIntType(t)
    ensures ConvertValue(v, t) == Null || (ConvertValue(v, t).IntVal? && INT_MIN <= ConvertValue(v, t).i <= INT_MAX)
  {
  }

  // ---------------------------------------------------------------------
  // mapFormParametersToMethodArgs
  // ---------------------------------------------------------------------

  /** The Map<String, Object> a map parameter receives: every request key with its first value, or null. */
  function FirstValues(req: Request): (m: map<string, Value>)
    ensures m.Keys == req.Keys
    ensures forall k :: k in req ==> m[k] == if |req[k]| > 0 then Str(req[k][0]) else Null
  {
    map k | k in req :: if |req[k]| > 0 then Str(req[k][0]) else Null
  }

  /** The loop over getParameterMap().entrySet(). */
  method CollectFirstValues(req: Request) returns (paramMap: map<string, Value>)
    ensures paramMap == FirstValues(req)
  {
    paramMap := map[];
    var rest := req.Keys;
    while rest != {}
      invariant rest <= req.Keys
      invariant paramMap.Keys == req.Keys - rest
      invariant forall k :: k in paramMap ==> paramMap[k] == FirstValues(req)[k]
      decreases rest
    {
      var k :| k in rest;
      var vs := req[k];
      paramMap := paramMap[k := if |vs| > 0 then Str(vs[0]) else Null];
      rest := rest - {k};
    }
  }

  /** field.set(obj, convertValue(value, field.getType())) for a field whose name was submitted; None means it threw. */
  function SetField(obj: map<string, Value>, f: FieldInfo, req: Request): Option<map<string, Value>> {
    match GetParameter(req, f.name)
    case None => Some(obj)
    case Some(v) =>
      var cv := ConvertValue(Some(v), f.fieldType);
      // Field.set refuses null for a primitive field with IllegalArgumentException
      if cv == Null && f.fieldType.Primitive? then None else Some(obj[f.name := cv])
  }

  /** The loop over getDeclaredFields, stopping at the first exception. */
  function SetFields(obj: map<string, Value>, fields: seq<FieldInfo>, req: Request): Option<map<string, Value>> {
    if |fields| == 0 then Some(obj)
    else
      match SetFields(obj, fields[..|fields| - 1], req)
      case None => None
      case Some(o) => SetField(o, fields[|fields| - 1], req)
  }

  /** The state of a fresh instance: every declared field holds its initial value. */
  function FreshInstance(fields: seq<FieldInfo>): (m: map<string, Value>)
    ensures forall i :: 0 <= i < |fields| ==> fields[i].name in m
  {
    if |fields| == 0 then map[]
    else FreshInstance(fields[..|fields| - 1])[fields[|fields| - 1].name := fields[|fields| - 1].initial]
  }

  /** newInstance() followed by the field loop, for a class whose constructor succeeds; None when anything threw. */
  function Instantiate(t: JType, req: Request): Option<Value> {
    if t.ClassType? && t.instantiable then
      match SetFields(FreshInstance(t.fields), t.fields, req)
      case Some(obj) => Some(ObjectVal(t.name, obj))
      case None => None
    else None
  }

  predicate IsStringObjectMap(t: JType) { t == MapType(true) }

  /** The custom-object test: not primitive, not String, not Map. */
  predicate IsCustomCandidate(t: JType) {
    !t.Primitive? && t != StringType && !t.MapType?
  }

  /** The array-of-custom test: an array whose component is neither primitive nor String. */
  predicate IsArrayCandidate(t: JType) {
    t.ArrayType? && !t.component.Primitive? && t.component != StringType
  }

  /** The candidate values the scalar steps consult, in order: the @Param name, the declared name, the path variable. */
  function ScalarCandidates(p: ParamInfo, req: Request, pathVars: map<string, string>): seq<Option<string>> {
    (if p.hint.Some? then [GetParameter(req, p.hint.value)] else [])
    + (if p.namePresent then [GetParameter(req, p.name)] else [])
    + (if p.name in pathVars then [Some(pathVars[p.name])] else [])
  }

  predicate IsNullOrEmpty(v: Option<string>) {
    v.None? || v.value == ""
  }

  /** The first candidate that is neither null nor empty; failing that the last candidate; failing that null. */
  function FirstNonEmpty(cs: seq<Option<string>>): Option<string> {
    if |cs| == 0 then None
    else if |cs| == 1 || !IsNullOrEmpty(cs[0]) then cs[0]
    else FirstNonEmpty(cs[1..])
  }

  function ScalarValue(p: ParamInfo, req: Request, pathVars: map<string, string>): Option<string> {
    FirstNonEmpty(ScalarCandidates(p, req, pathVars))
  }

  /** One scalar step: it replaces the value by the candidate when it applies and the value is null or empty. */
  function Step(value: Option<string>, applies: bool, candidate: Option<string>): Option<string> {
    if applies && IsNullOrEmpty(value) then candidate else value
  }

  lemma FirstNonEmptyCons(x: Option<string>, rest: seq<Option<string>>)
    ensures FirstNonEmpty([x] + rest) == if rest == [] || !IsNullOrEmpty(x) then x else FirstNonEmpty(rest)
  {
    assert ([x] + rest)[0] == x;
    assert ([x] + rest)[1..] == rest;
  }

  /**
   * Three reassignments guarded by "still null or empty" pick the first
   * non-empty candidate among those that apply, or else the last one that applies.
   */
  lemma StepsPickFirstNonEmpty(a: bool, x: Option<string>, b: bool, y: Option<string>, c: bool, z: Option<string>)
    ensures Step(Step(Step(None, a, x), b, y), c, z) ==
              FirstNonEmpty((if a then [x] else []) + (if b then [y] else []) + (if c then [z] else []))
  {
    var l3: seq<Option<string>> := if c then [z] else [];
    var l2: seq<Option<string>> := if b then [y] else [];
    var l1: seq<Option<string>> := if a then [x] else [];
    assert l1 + l2 + l3 == l1 + (l2 + l3);
    if b { FirstNonEmptyCons(y, l3); } else { assert l2 + l3 == l3; }
    if a { FirstNonEmptyCons(x, l2 + l3); } else { assert l1 + (l2 + l3) == l2 + l3; }
  }

  /** The value one parameter receives, by the four rules tried in order. */
  function BindParam(p: ParamInfo, req: Request, pathVars: map<string, string>): Value {
    var t := p.paramType;
    if IsStringObjectMap(t) then MapVal(FirstValues(req))
    else if IsCustomCandidate(t) && Instantiate(t, req).Some? then Instantiate(t, req).value
    else if IsArrayCandidate(t) && Instantiate(t.component, req).Some? then ArrayVal([Instantiate(t.component, req).value])
    else ConvertValue(ScalarValue(p, req, pathVars), t)
  }

  /** Path variables are extracted only when both template and path are given. */
  function PathVariables(template: Option<string>, path: Option<string>): map<string, string> {
    if template.Some? && path.Some? then PatternMatcher.Variables(template.value, path.value) else map[]
  }

  /** The three scalar steps, each overwriting the value only while it is null or empty. */
  method ResolveScalar(p: ParamInfo, req: Request, pathVars: map<string, string>) returns (value: Option<string>)
    ensures value == ScalarValue(p, req, pathVars)
  {
    value := None;
    if p.hint.Some? {
      value := GetParameter(req, p.hint.value);
    }
    if IsNullOrEmpty(value) && p.namePresent {
      value := GetParameter(req, p.name);
    }
    if IsNullOrEmpty(value) && p.name in pathVars {
      value := Some(pathVars[p.name]);
    }
    StepsPickFirstNonEmpty(
      p.hint.Some?, if p.hint.Some? then GetParameter(req, p.hint.value) else None,
      p.namePresent, GetParameter(req, p.name),
      p.name in pathVars, if p.name in pathVars then Some(pathVars[p.name]) else None);
  }

  /** The field loop over a fresh instance; ok is false when Field.set threw. */
  method PopulateFields(fields: seq<FieldInfo>, req: Request) returns (ok: bool, obj: map<string, Value>)
    ensures ok == SetFields(FreshInstance(fields), fields, req).Some?
    ensures ok ==> obj == SetFields(FreshInstance(fields), fields, req).value
  {
    obj := FreshInstance(fields);
    ghost var start := obj;
    for i := 0 to |fields|
      invariant SetFields(start, fields[..i], req) == Some(obj)
    {
      assert fields[..i + 1][..i] == fields[..i];
      var f := fields[i];
      var pv := GetParameter(req, f.name);
      if pv.Some? {
        var cv := ConvertValue(pv, f.fieldType);
        if cv == Null && f.fieldType.Primitive? {
          FailureSticks(start, fields, req, i + 1);
          return false, obj;
        }
        obj := obj[f.name := cv];
      }
    }
    assert fields[..|fields|] == fields;
    return true, obj;
  }

  lemma {:induction false} FailureSticks(obj: map<string, Value>, fields: seq<FieldInfo>, req: Request, n: nat)
    requires n <= |fields| && SetFields(obj, fields[..n], req).None?
    ensures SetFields(obj, fields, req).None?
    decreases |fields| - n
  {
    if n < |fields| {
      assert fields[..n + 1][..n] == fields[..n];
      FailureSticks(obj, fields, req, n + 1);
    } else {
      assert fields[..n] == fields;
    }
  }

  /** newInstance() of a parameter or component type, then its fields. */
  method NewPopulated(t: JType, req: Request) returns (r: Option<Value>)
    ensures r == Instantiate(t, req)
  {
    if t.ClassType? && t.instantiable {
      var ok, obj := PopulateFields(t.fields, req);
      if ok {
        return Some(ObjectVal(t.name, obj));
      }
    }
    return None;
  }

  /** The body of the parameter loop: each rule ends with `continue` when it succeeds. */
  method BindParameter(p: ParamInfo, req: Request, pathVars: map<string, string>) returns (v: Value)
    ensures v == BindParam(p, req, pathVars)
  {
    var t := p.paramType;
    if t == MapType(true) {
      var paramMap := CollectFirstValues(req);
      return MapVal(paramMap);
    }
    if !t.Primitive? && t != StringType && !t.MapType? {
      var obj := NewPopulated(t, req);
      if obj.Some? {
        return obj.value;
      }
    }
    if t.ArrayType? && !t.component.Primitive? && t.component != StringType {
      var obj := NewPopulated(t.component, req);
      if obj.Some? {
        return ArrayVal([obj.value]);
      }
    }
    var value := ResolveScalar(p, req, pathVars);
    return ConvertValue(value, t);
  }

  /** The four-argument mapFormParametersToMethodArgs. */
  method MapFormParametersToMethodArgs(params: seq<ParamInfo>, req: Request, urlPattern: Option<string>, actualPath: Option<string>)
    returns (args: array<Value>)
    ensures fresh(args) && args.Length == |params|
    ensures forall i :: 0 <= i < |params| ==> args[i] == BindParam(params[i], req, PathVariables(urlPattern, actualPath))
  {
    args := new Value[|params|](_ => Null);
    var pathVars: map<string, string> := map[];
    if urlPattern.Some? && actualPath.Some? {
      pathVars := PatternMatcher.ExtractVariables(urlPattern.value, actualPath.value);
    }
    for i := 0 to |params|
      invariant forall j :: 0 <= j < i ==> args[j] == BindParam(params[j], req, pathVars)
    {
      args[i] := BindParameter(params[i], req, pathVars);
    }
  }

  /** The two-argument overload: no template and no path, so no path variables. */
  method MapFormParametersToMethodArgsNoPath(params: seq<ParamInfo>, req: Request) returns (args: array<Value>)
    ensures fresh(args) && args.Length == |params|
    ensures forall i :: 0 <= i < |params| ==> args[i] == BindParam(params[i], req, map[])
  {
    args := MapFormParametersToMethodArgs(params, req, None, None);
  }

  // ---------------------------------------------------------------------
  // Properties of the binder
  // ---------------------------------------------------------------------

  /** The scalar precedence: the @Param value, then the declared name, then the path variable; a later step only replaces a null or empty value. */
  lemma ScalarPrecedence(p: ParamInfo, req: Request, pathVars: map<string, string>)
    ensures p.hint.Some? && !IsNullOrEmpty(GetParameter(req, p.hint.value)) ==>
              ScalarValue(p, req, pathVars) == GetParameter(req, p.hint.value)
    ensures (p.hint.None? || IsNullOrEmpty(GetParameter(req, p.hint.value))) && p.namePresent
              && !IsNullOrEmpty(GetParameter(req, p.name)) ==>
              ScalarValue(p, req, pathVars) == GetParameter(req, p.name)
    ensures (p.hint.None? || IsNullOrEmpty(GetParameter(req, p.hint.value)))
              && (!p.namePresent || IsNullOrEmpty(GetParameter(req, p.name)))
              && p.name in pathVars ==>
              ScalarValue(p, req, pathVars) == Some(pathVars[p.name])
  {
    StepsPickFirstNonEmpty(
      p.hint.Some?, if p.hint.Some? then GetParameter(req, p.hint.value) else None,
      p.namePresent, GetParameter(req, p.name),
      p.name in pathVars, if p.name in pathVars then Some(pathVars[p.name]) else None);
  }

  /** A form value of the declared name wins over a path variable of the same name. */
  lemma FormBeatsPathVariable(p: ParamInfo, req: Request, pathVars: map<string, string>, v: string)
    requires p.hint.None? && p.namePresent && p.name in pathVars
    requires GetParameter(req, p.name) == Some(v) && v != ""
    ensures ScalarValue(p, req, pathVars) == Some(v)
  {
  }

  /** Without template and path there are no path variables, as in the two-argument overload. */
  lemma NoPathNoVariables(template: Option<string>, path: Option<string>)
    requires template.None? || path.None?
    ensures PathVariables(template, path) == map[]
  {
  }

  /** A Map<String, Object> parameter gets every request key with its first value, or null. */
  lemma MapParameter(p: ParamInfo, req: Request, pathVars: map<string, string>)
    requires p.paramType == MapType(true)
    ensures BindParam(p, req, pathVars).MapVal?
    ensures BindParam(p, req, pathVars).entries.Keys == req.Keys
    ensures forall k :: k in req ==>
              BindParam(p, req, pathVars).entries[k] == if |req[k]| > 0 then Str(req[k][0]) else Null
  {
  }

  predicate DistinctNames(fields: seq<FieldInfo>) {
    forall i, j :: 0 <= i < j < |fields| ==> fields[i].name != fields[j].name
  }

  /** Whether setting field f from the request throws: a submitted value that converts to null for a primitive field. */
  predicate SetFails(f: FieldInfo, req: Request) {
    GetParameter(req, f.name).Some? && ConvertValue(GetParameter(req, f.name), f.fieldType) == Null && f.fieldType.Primitive?
  }

  /** A field's value after population: the converted request value if one was submitted, else its initial value. */
  function PopulatedValue(f: FieldInfo, req: Request): Value {
    if GetParameter(req, f.name).Some? then ConvertValue(GetParameter(req, f.name), f.fieldType) else f.initial
  }

  /** One field: it fails exactly when SetFails says so, and otherwise changes at most that field, to its populated value. */
  lemma SetFieldSpec(o: map<string, Value>, f: FieldInfo, req: Request)
    ensures SetField(o, f, req).Some? <==> !SetFails(f, req)
    ensures SetField(o, f, req).Some? ==>
              SetField(o, f, req).value == if GetParameter(req, f.name).Some? then o[f.name := PopulatedValue(f, req)] else o
  {
  }

  /** The loop succeeds exactly when no field's setting fails, whatever the object holds. */
  lemma {:induction false} SetFieldsSucceed(obj: map<string, Value>, fields: seq<FieldInfo>, req: Request)
    ensures SetFields(obj, fields, req).Some? <==> forall i :: 0 <= i < |fields| ==> !SetFails(fields[i], req)
  {
    if |fields| > 0 {
      var front := fields[..|fields| - 1];
      SetFieldsSucceed(obj, front, req);
      assert forall i :: 0 <= i < |front| ==> front[i] == fields[i];
      var prev := SetFields(obj, front, req);
      if prev.Some? {
        SetFieldSpec(prev.value, fields[|fields| - 1], req);
      }
    }
  }

  lemma SetFieldsSpec(fields: seq<FieldInfo>, req: Request, n: nat)
    requires n <= |fields| && DistinctNames(fields)
    ensures var r := SetFields(FreshInstance(fields), fields[..n], req);
            && (r.Some? <==> forall i :: 0 <= i < n ==> !SetFails(fields[i], req))
            && (r.Some? ==>
                  && r.value.Keys == FreshInstance(fields).Keys
                  && (forall i :: 0 <= i < n ==> r.value[fields[i].name] == PopulatedValue(fields[i], req))
                  && (forall i :: n <= i < |fields| ==> r.value[fields[i].name] == FreshInstance(fields)[fields[i].name]))
  {
    SetFieldsSucceed(FreshInstance(fields), fields[..n], req);
    assert forall i :: 0 <= i < n ==> fields[..n][i] == fields[i];
    if SetFields(FreshInstance(fields), fields[..n], req).Some? {
      SetFieldsValues(fields, req, n);
    }
  }

  /** What a successful loop leaves in the fresh instance after the first n fields. */
  lemma {:induction false} SetFieldsValues(fields: seq<FieldInfo>, req: Request, n: nat)
    requires n <= |fields| && DistinctNames(fields)
    requires SetFields(FreshInstance(fields), fields[..n], req).Some?
    ensures var r := SetFields(FreshInstance(fields), fields[..n], req).value;
            && r.Keys == FreshInstance(fields).Keys
            && (forall i :: 0 <= i < n ==> r[fields[i].name] == PopulatedValue(fields[i], req))
            && (forall i :: n <= i < |fields| ==> r[fields[i].name] == FreshInstance(fields)[fields[i].name])
  {
    var init := FreshInstance(fields);
    FreshInstanceSpec(fields);
    if n > 0 {
      assert fields[..n][..n - 1] == fields[..n - 1];
      assert fields[..n][n - 1] == fields[n - 1];
      SetFieldsLast(init, fields[..n], req);
      var pv := SetFields(init, fields[..n - 1], req).value;
      SetFieldsValues(fields, req, n - 1);
      SetFieldsValuesStep(fields, req, n, init, pv);
    } else {
      assert fields[..n] == [];
    }
  }

  /** The inductive step of SetFieldsValues, on the object before the n-th field. */
  lemma SetFieldsValuesStep(fields: seq<FieldInfo>, req: Request, n: nat, init: map<string, Value>, pv: map<string, Value>)
    requires 0 < n <= |fields| && DistinctNames(fields)
    requires forall i :: 0 <= i < |fields| ==> fields[i].name in init && init[fields[i].name] == fields[i].initial
    requires pv.Keys == init.Keys
    requires forall i :: 0 <= i < n - 1 ==> pv[fields[i].name] == PopulatedValue(fields[i], req)
    requires forall i :: n - 1 <= i < |fields| ==> pv[fields[i].name] == init[fields[i].name]
    requires SetField(pv, fields[n - 1], req).Some?
    ensures var r := SetField(pv, fields[n - 1], req).value;
            && r.Keys == init.Keys
            && (forall i :: 0 <= i < n ==> r[fields[i].name] == PopulatedValue(fields[i], req))
            && (forall i :: n <= i < |fields| ==> r[fields[i].name] == init[fields[i].name])
  {
    var f := fields[n - 1];
    SetFieldSpec(pv, f, req);
    forall i | 0 <= i < |fields| && i != n - 1
      ensures SetField(pv, f, req).value[fields[i].name] == pv[fields[i].name]
    {
      SetFieldKeeps(pv, f, req, fields[i].name);
    }
  }

  /** The loop's last step, the unfolding the inductive proofs need. */
  lemma SetFieldsLast(obj: map<string, Value>, fields: seq<FieldInfo>, req: Request)
    requires |fields| > 0
    ensures var prev := SetFields(obj, fields[..|fields| - 1], req);
            SetFields(obj, fields, req) == if prev.None? then None else SetField(prev.value, fields[|fields| - 1], req)
  {
  }

  /** Setting one field leaves every other key as it was. */
  lemma SetFieldKeeps(o: map<string, Value>, f: FieldInfo, req: Request, k: string)
    requires SetField(o, f, req).Some? && k != f.name && k in o
    ensures k in SetField(o, f, req).value && SetField(o, f, req).value[k] == o[k]
  {
  }

  lemma {:induction false} FreshInstanceSpec(fields: seq<FieldInfo>)
    requires DistinctNames(fields)
    ensures forall i :: 0 <= i < |fields| ==> FreshInstance(fields)[fields[i].name] == fields[i].initial
    ensures forall k :: k in FreshInstance(fields) ==> exists i :: 0 <= i < |fields| && fields[i].name == k
  {
    if |fields| > 0 {
      FreshInstanceSpec(fields[..|fields| - 1]);
    }
  }

  /**
   * Populating a fresh instance: it succeeds unless some submitted field value
   * converts to null for a primitive field; then the object has exactly the
   * declared fields, each set from the same-named request parameter if there is
   * one, and holding its initial value otherwise.
   */
  lemma PopulatedObject(fields: seq<FieldInfo>, req: Request)
    requires DistinctNames(fields)
    ensures var r := SetFields(FreshInstance(fields), fields, req);
            && (r.Some? <==> forall i :: 0 <= i < |fields| ==> !SetFails(fields[i], req))
            && (r.Some? ==>
                  && (forall k :: k in r.value <==> exists i :: 0 <= i < |fields| && fields[i].name == k)
                  && (forall i :: 0 <= i < |fields| ==> r.value[fields[i].name] == PopulatedValue(fields[i], req)))
  {
    SetFieldsSpec(fields, req, |fields|);
    FreshInstanceSpec(fields);
    assert fields[..|fields|] == fields;
  }

  /** A custom-object parameter whose class can be instantiated and populated gets that object. */
  lemma CustomParameter(p: ParamInfo, req: Request, pathVars: map<string, string>)
    requires p.paramType.ClassType? && p.paramType.instantiable
    requires SetFields(FreshInstance(p.paramType.fields), p.paramType.fields, req).Some?
    ensures BindParam(p, req, pathVars) ==
              ObjectVal(p.paramType.name, SetFields(FreshInstance(p.paramType.fields), p.paramType.fields, req).value)
  {
  }

  /** An array-of-custom parameter gets an array of exactly one populated element. */
  lemma ArrayParameter(p: ParamInfo, req: Request, pathVars: map<string, string>)
    requires IsArrayCandidate(p.paramType) && Instantiate(p.paramType.component, req).Some?
    ensures BindParam(p, req, pathVars).ArrayVal?
    ensures BindParam(p, req, pathVars).elements == [Instantiate(p.paramType.component, req).value]
  {
  }

  /** Boxed types such as Integer have no no-argument constructor, so they are never instantiated. */
  lemma BoxedNeverInstantiated(b: Prim, req: Request)
    ensures Instantiate(Boxed(b), req).None?
  {
  }

  /**
   * When neither object rule produces a value (no working constructor, or a
   * field that could not be set, for the parameter or the array component),
   * binding falls through to the scalar steps.
   */
  lemma FailedInstantiationFallsThrough(p: ParamInfo, req: Request, pathVars: map<string, string>)
    requires !IsStringObjectMap(p.paramType)
    requires IsCustomCandidate(p.paramType) ==> Instantiate(p.paramType, req).None?
    requires IsArrayCandidate(p.paramType) ==> Instantiate(p.paramType.component, req).None?
    ensures BindParam(p, req, pathVars) == ConvertValue(ScalarValue(p, req, pathVars), p.paramType)
  {
  }

  /** A class whose field setting throws makes instantiation fail, even though its constructor works. */
  lemma FieldFailureFailsInstantiation(t: JType, req: Request, i: nat)
    requires t.ClassType? && t.instantiable && i < |t.fields| && SetFails(t.fields[i], req)
    ensures Instantiate(t, req).None?
  {
    SetFieldsSucceed(FreshInstance(t.fields), t.fields, req);
  }
}
