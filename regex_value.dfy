/**
 * RegexValue (src/Values/RegexValue.php): a pattern stored between two
 * ASCII bell (\x07) delimiters followed by the `u` (UTF-8) modifier, so that
 * the pattern itself never needs escaping.
 */
module RegexValue {
  import opened Wrappers
  import opened Values

  const Bell: char := '\U{7}'

  /** The stored value of the regex with the empty pattern. */
  const EmptyRegex: string := [Bell, Bell, 'u']

  /** A regex value as the constructor builds it: the delimiters and the modifier around a pattern. */
  ghost predicate IsRegex(r: Value)
  {
    && r.Regex?
    && |r.value| >= 3
    && r.value[0] == Bell
    && r.value[|r.value| - 2..] == [Bell, 'u']
  }

  /** `new RegexValue($regex)`: the stored value is "\x07" + pattern + "\x07u". */
  function New(pattern: string): (r: Value)
    ensures IsRegex(r)
    ensures |r.value| == |pattern| + 3
    ensures r.value[1..|r.value| - 2] == pattern
  {
    Regex([Bell] + pattern + [Bell, 'u'])
  }

  /** `getStringValue`: the stored value without the first delimiter and the final delimiter and modifier. */
  function StringValue(r: Value): (pattern: string)
    requires IsRegex(r)
    ensures |pattern| == |r.value| - 3
    ensures r.value == [Bell] + pattern + [Bell, 'u']
  {
    r.value[1..|r.value| - 2]
  }

  /** `getStringRepr`: the pattern in the regex-literal syntax rx"...". */
  function StringRepr(r: Value): (repr: string)
    requires IsRegex(r)
    ensures repr == "rx\"" + StringValue(r) + "\""
    ensures |repr| == |r.value| + 1
  {
    "rx\"" + r.value[1..|r.value| - 2] + "\""
  }

  /** `isTruthy`: every regex but the one built from the empty pattern. */
  function IsTruthy(r: Value): (truthy: bool)
    requires r.Regex?
    ensures IsRegex(r) ==> (truthy <==> StringValue(r) != "")
  {
    r.value != EmptyRegex
  }

  /**
   * `isEqualTo`: None ("not comparable, ask the other side") unless the right
   * operand is a string or a regex; two regexes compare their stored values;
   * a string is matched against the regex by `pregMatch`, PHP's `preg_match`,
   * which is foreign to this model and therefore a parameter.
   */
  function IsEqualTo(r: Value, right: Value, pregMatch: (string, string) -> bool): (eq: Option<bool>)
    requires r.Regex?
    ensures eq.None? <==> !(right.String? || right.Regex?)
    ensures right.Regex? ==> eq == Some(r.value == right.value)
    ensures right.String? ==> eq == Some(pregMatch(r.value, right.text))
  {
    if !(right.String? || right.Regex?) then None
    else if right.Regex? then Some(r.value == right.value)
    else Some(pregMatch(r.value, right.text))
  }

  /** The pattern given to the constructor is the one `getStringValue` gives back. */
  lemma StringValueOfNew(pattern: string)
    ensures StringValue(New(pattern)) == pattern
  {
  }

  /** Conversely every regex value is rebuilt by the constructor from its string value. */
  lemma NewOfStringValue(r: Value)
    requires IsRegex(r)
    ensures New(StringValue(r)) == r
  {
    var v := r.value;
    assert v == [v[0]] + v[1..|v| - 2] + v[|v| - 2..];
  }

  /** The representation of a fresh regex is rx"<pattern>". */
  lemma StringReprOfNew(pattern: string)
    ensures StringRepr(New(pattern)) == "rx\"" + pattern + "\""
  {
  }

  /** A regex is falsy exactly when its pattern is empty. */
  lemma TruthyIffPatternNonEmpty(r: Value)
    requires IsRegex(r)
    ensures IsTruthy(r) <==> StringValue(r) != ""
  {
    if StringValue(r) == "" {
      NewOfStringValue(r);
      assert New("") == Regex(EmptyRegex);
    } else {
      assert |r.value| != |EmptyRegex|;
    }
  }

  /** Two regex values are equal exactly when their patterns are. */
  lemma EqualIffSamePattern(r: Value, right: Value, pregMatch: (string, string) -> bool)
    requires IsRegex(r) && IsRegex(right)
    ensures IsEqualTo(r, right, pregMatch) == Some(StringValue(r) == StringValue(right))
  {
    if StringValue(r) == StringValue(right) {
      NewOfStringValue(r);
      NewOfStringValue(right);
    }
  }
}
