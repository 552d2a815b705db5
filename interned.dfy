/**
 * Interned (src/Helpers/Interned.php): the factory that builds primitive values
 * and shares one object per short payload. Four singletons are built eagerly;
 * numbers, strings, bytes and regexes are cached per kind under their payload
 * when the payload is at most eight bytes long.
 */
module Interned {
  import opened Values
  import RegexValue

  /** Payloads of at most this many bytes (`strlen`) are interned. */
  const InternLimit: nat := 8

  predicate IsShort(text: string)
  {
    Utf8Length(text) <= InternLimit
  }

  /** A value object; object identity is reference equality. */
  class Instance {
    const value: Value

    constructor (v: Value)
      ensures value == v
    {
      value := v;
    }
  }

  class Interner {
    var nullValue: Instance
    var boolFalse: Instance
    var boolTrue: Instance
    var notImplemented: Instance
    var numbers: map<string, Instance>
    var strings: map<string, Instance>
    var bytes: map<seq<byte>, Instance>
    var regexes: map<string, Instance>

    /** Each singleton holds its value, and each cache entry is a short payload's own value. */
    ghost predicate Valid()
      reads this
    {
      && nullValue.value == Null
      && boolFalse.value == Bool(false)
      && boolTrue.value == Bool(true)
      && notImplemented.value == NotImplemented
      && (forall k | k in numbers :: IsShort(k) && numbers[k].value == Number(k))
      && (forall k | k in strings :: IsShort(k) && strings[k].value == String(k))
      && (forall k | k in bytes :: |k| <= InternLimit && bytes[k].value == Bytes(k))
      && (forall k | k in regexes :: IsShort(k) && regexes[k].value == RegexValue.New(k))
    }

    /** `init`: the four singletons, built once; the caches start empty. */
    constructor Init()
      ensures Valid()
      ensures fresh(nullValue) && fresh(boolFalse) && fresh(boolTrue) && fresh(notImplemented)
      ensures numbers == map[] && strings == map[] && bytes == map[] && regexes == map[]
    {
      nullValue := new Instance(Null);
      boolFalse := new Instance(Bool(false));
      boolTrue := new Instance(Bool(true));
      notImplemented := new Instance(NotImplemented);
      numbers, strings, bytes, regexes := map[], map[], map[], map[];
    }

    /** `null()`: always the one null object. */
    method GetNull() returns (r: Instance)
      requires Valid()
      ensures r == nullValue && r.value == Null
    {
      r := nullValue;
    }

    /** `bool()`: always the true singleton for true and the false singleton for false, and these differ. */
    method GetBool(truth: bool) returns (r: Instance)
      requires Valid()
      ensures r.value == Bool(truth)
      ensures r == (if truth then boolTrue else boolFalse)
      ensures boolTrue != boolFalse
    {
      if truth {
        r := boolTrue;
      } else {
        r := boolFalse;
      }
    }

    /** `constNotImplemented()`: always the one NotImplemented object. */
    method GetNotImplemented() returns (r: Instance)
      requires Valid()
      ensures r == notImplemented && r.value == NotImplemented
    {
      r := notImplemented;
    }

    /**
     * `number()`: a short payload already cached gives the cached object and
     * changes nothing; a short payload not yet cached gives a new object that
     * is stored under it; a long payload gives a new object every time and
     * leaves the cache alone. No other entry, cache or singleton changes.
     */
    method GetNumber(digits: string) returns (r: Instance)
      requires Valid()
      modifies this`numbers
      ensures Valid()
      ensures r.value == Number(digits)
      ensures IsShort(digits) && digits in old(numbers) ==> r == old(numbers)[digits] && numbers == old(numbers)
      ensures IsShort(digits) && digits !in old(numbers) ==> fresh(r) && numbers == old(numbers)[digits := r]
      ensures !IsShort(digits) ==> fresh(r) && numbers == old(numbers)
    {
      if Utf8Length(digits) <= InternLimit {
        if digits in numbers {
          return numbers[digits];
        }
        r := new Instance(Number(digits));
        numbers := numbers[digits := r];
        return;
      }
      r := new Instance(Number(digits));
    }

    /** `string()`: the same rule as `number()`, with its own cache. */
    method GetString(text: string) returns (r: Instance)
      requires Valid()
      modifies this`strings
      ensures Valid()
      ensures r.value == String(text)
      ensures IsShort(text) && text in old(strings) ==> r == old(strings)[text] && strings == old(strings)
      ensures IsShort(text) && text !in old(strings) ==> fresh(r) && strings == old(strings)[text := r]
      ensures !IsShort(text) ==> fresh(r) && strings == old(strings)
    {
      if Utf8Length(text) <= InternLimit {
        if text in strings {
          return strings[text];
        }
        r := new Instance(String(text));
        strings := strings[text := r];
        return;
      }
      r := new Instance(String(text));
    }

    /** `bytes()`: the same rule on a byte payload (eight bytes, whatever the comment in the source says). */
    method GetBytes(data: seq<byte>) returns (r: Instance)
      requires Valid()
      modifies this`bytes
      ensures Valid()
      ensures r.value == Bytes(data)
      ensures |data| <= InternLimit && data in old(bytes) ==> r == old(bytes)[data] && bytes == old(bytes)
      ensures |data| <= InternLimit && data !in old(bytes) ==> fresh(r) && bytes == old(bytes)[data := r]
      ensures |data| > InternLimit ==> fresh(r) && bytes == old(bytes)
    {
      if |data| <= InternLimit {
        if data in bytes {
          return bytes[data];
        }
        r := new Instance(Bytes(data));
        bytes := bytes[data := r];
        return;
      }
      r := new Instance(Bytes(data));
    }

    /** `regex()`: the same rule for patterns (eight bytes, not 32); the object is `new RegexValue(pattern)`. */
    method GetRegex(pattern: string) returns (r: Instance)
      requires Valid()
      modifies this`regexes
      ensures Valid()
      ensures r.value == RegexValue.New(pattern)
      ensures IsShort(pattern) && pattern in old(regexes) ==> r == old(regexes)[pattern] && regexes == old(regexes)
      ensures IsShort(pattern) && pattern !in old(regexes) ==> fresh(r) && regexes == old(regexes)[pattern := r]
      ensures !IsShort(pattern) ==> fresh(r) && regexes == old(regexes)
    {
      if Utf8Length(pattern) <= InternLimit {
        if pattern in regexes {
          return regexes[pattern];
        }
        r := new Instance(RegexValue.New(pattern));
        regexes := regexes[pattern := r];
        return;
      }
      r := new Instance(RegexValue.New(pattern));
    }
  }

  /**
   * Two requests for the same number share one object exactly when the payload
   * is short; long payloads give two distinct objects with equal values.
   */
  method NumberTwice(interner: Interner, digits: string) returns (first: Instance, second: Instance)
    requires interner.Valid()
    modifies interner`numbers
    ensures interner.Valid()
    ensures first.value == second.value == Number(digits)
    ensures first == second <==> IsShort(digits)
  {
    first := interner.GetNumber(digits);
    second := interner.GetNumber(digits);
  }

  /** A number and a string with the same payload are never the same object. */
  method KindsNeverShare(interner: Interner, text: string) returns (n: Instance, s: Instance)
    requires interner.Valid()
    modifies interner`numbers, interner`strings
    ensures interner.Valid()
    ensures n.value == Number(text) && s.value == String(text)
    ensures n != s
  {
    n := interner.GetNumber(text);
    s := interner.GetString(text);
  }
}
