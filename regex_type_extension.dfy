/**
 * RegexTypeExtension (src/Stdlib/TypeExtensions/RegexTypeExtension.php): the
 * `regex(value)` constructor of the language. It checks the type object,
 * defaults a missing argument to the empty string, accepts strings and
 * regexes only, and asks the interner for a regex over the argument's string
 * value.
 */
module RegexTypeExtension {
  import opened Wrappers
  import opened Values
  import RegexValue
  import Interned

  /** The type object passed as the first argument of `__new__`. */
  datatype TypeObject = RegexType | OtherType(name: string)

  datatype TypeError = TypeError(message: string)

  const InvalidTypeObject := "Passed invalid type object"
  const InvalidArgument := "Invalid argument passed to regex()"

  /**
   * The pattern `__new__` hands to the interner, or the type error it raises.
   * A missing argument is the empty string.
   */
  function PatternFor(typeObject: TypeObject, value: Option<Value>): (r: Result<string, TypeError>)
    requires value.Some? && value.value.Regex? ==> RegexValue.IsRegex(value.value)
    ensures typeObject != RegexType ==> r == Failure(TypeError(InvalidTypeObject))
    ensures typeObject == RegexType && value.None? ==> r == Success("")
    ensures typeObject == RegexType && value.Some? ==>
      (r.Failure? <==> !(value.value.String? || value.value.Regex?))
    ensures r.Failure? ==> r.error.message in {InvalidTypeObject, InvalidArgument}
  {
    if typeObject != RegexType then Failure(TypeError(InvalidTypeObject))
    else
      var argument := if value.None? then String("") else value.value;
      match argument
      case String(text) => Success(text)
      case Regex(_) => Success(RegexValue.StringValue(argument))
      case _ => Failure(TypeError(InvalidArgument))
  }

  /** `regex(rx)` gives back a regex equal to `rx`. */
  lemma RegexArgumentKeepsPattern(r: Value)
    requires RegexValue.IsRegex(r)
    ensures PatternFor(RegexType, Some(r)).Success?
    ensures RegexValue.New(PatternFor(RegexType, Some(r)).value) == r
  {
    RegexValue.NewOfStringValue(r);
  }

  /** `regex("...")` gives a regex whose string value is the string itself. */
  lemma StringArgumentBecomesPattern(text: string)
    ensures PatternFor(RegexType, Some(String(text))) == Success(text)
    ensures RegexValue.StringValue(RegexValue.New(PatternFor(RegexType, Some(String(text))).value)) == text
  {
    RegexValue.StringValueOfNew(text);
  }

  /** `regex()` gives the empty regex, which is falsy. */
  lemma DefaultIsEmptyFalsyRegex()
    ensures PatternFor(RegexType, None) == Success("")
    ensures RegexValue.New("") == Regex(RegexValue.EmptyRegex)
    ensures !RegexValue.IsTruthy(RegexValue.New(""))
  {
    assert [RegexValue.Bell] + "" + [RegexValue.Bell, 'u'] == RegexValue.EmptyRegex;
  }

  /** The type object is checked first: a wrong one is refused whatever the argument. */
  lemma TypeCheckedFirst(name: string, value: Option<Value>)
    requires value.Some? && value.value.Regex? ==> RegexValue.IsRegex(value.value)
    ensures PatternFor(OtherType(name), value) == Failure(TypeError(InvalidTypeObject))
  {
  }

  /**
   * `$value ??= Interned::string('')`: the argument, or the interned empty
   * string when there is none; only the default touches the string cache.
   */
  method Argument(interner: Interned.Interner, value: Option<Value>) returns (argument: Value)
    requires interner.Valid()
    modifies interner`strings
    ensures interner.Valid()
    ensures argument == if value.None? then String("") else value.value
    ensures value.None? ==> "" in interner.strings && interner.strings - {""} == old(interner.strings) - {""}
    ensures "" in old(interner.strings) || value.Some? ==> interner.strings == old(interner.strings)
  {
    if value.None? {
      var empty := interner.GetString("");
      assert Interned.IsShort("");
      argument := empty.value;
    } else {
      argument := value.value;
    }
  }

  /**
   * `__new__`: the interned regex over the argument's pattern. The default
   * argument is itself taken from the interner (`Interned::string('')`).
   */
  method New(interner: Interned.Interner, typeObject: TypeObject, value: Option<Value>)
    returns (r: Result<Interned.Instance, TypeError>)
    requires interner.Valid()
    requires value.Some? && value.value.Regex? ==> RegexValue.IsRegex(value.value)
    modifies interner`strings, interner`regexes
    ensures interner.Valid()
    ensures r.Failure? <==> PatternFor(typeObject, value).Failure?
    ensures r.Failure? ==> r.error == PatternFor(typeObject, value).error && unchanged(interner)
    ensures r.Success? ==> r.value.value == RegexValue.New(PatternFor(typeObject, value).value)
    ensures r.Success? ==>
      var p := PatternFor(typeObject, value).value;
      && (Interned.IsShort(p) && p in old(interner.regexes) ==>
            r.value == old(interner.regexes)[p] && interner.regexes == old(interner.regexes))
      && (Interned.IsShort(p) && p !in old(interner.regexes) ==>
            fresh(r.value) && interner.regexes == old(interner.regexes)[p := r.value])
      && (!Interned.IsShort(p) ==> fresh(r.value) && interner.regexes == old(interner.regexes))
    ensures value.None? && typeObject == RegexType ==>
      "" in interner.strings && interner.strings - {""} == old(interner.strings) - {""}
    ensures "" in old(interner.strings) ==> interner.strings == old(interner.strings)
    ensures value.Some? ==> interner.strings == old(interner.strings)
  {
    if typeObject != RegexType {
      return Failure(TypeError(InvalidTypeObject));
    }
    var argument := Argument(interner, value);
    if !argument.String? && !argument.Regex? {
      return Failure(TypeError(InvalidArgument));
    }
    var pattern := if argument.String? then argument.text else RegexValue.StringValue(argument);
    assert pattern == PatternFor(typeObject, value).value;
    var instance := interner.GetRegex(pattern);
    return Success(instance);
  }

  /** `regex(s)` called twice with a short pattern gives the identical interned object. */
  method NewTwice(interner: Interned.Interner, text: string) returns (first: Interned.Instance, second: Interned.Instance)
    requires interner.Valid()
    requires Interned.IsShort(text)
    modifies interner`strings, interner`regexes
    ensures interner.Valid()
    ensures first == second && first.value == RegexValue.New(text)
  {
    var a := New(interner, RegexType, Some(String(text)));
    var b := New(interner, RegexType, Some(String(text)));
    first, second := a.value, b.value;
  }
}
