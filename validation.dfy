/** The browser-side form checks: the email and phone tests of the site
    script, and the rule-driven field validator whose rules come from a
    field's `data-validation` attribute, written "name" or "name:value" and
    separated by "|". */
module FormValidation {
  import opened Models
  import opened Chars
  import opened JsString
  import opened Sequences

  // ---------------------------------------------------------------------------
  // Email: /^[^\s@]+@[^\s@]+\.[^\s@]+$/

  /** Characters `[^\s@]` accepts. */
  predicate Plain(s: string)
  {
    forall k :: 0 <= k < |s| ==> !IsSpace(s[k]) && s[k] != '@'
  }

  /** The regular expression read position by position: s is a non-empty
      plain local part, "@", a non-empty plain piece, ".", and a non-empty
      plain piece, with "@" at index at and that "." at index dot. */
  ghost predicate EmailAt(s: string, at: int, dot: int)
  {
    && 0 < at && at + 1 < dot && dot + 1 < |s|
    && s[at] == '@' && s[dot] == '.'
    && Plain(s[..at]) && Plain(s[at + 1..dot]) && Plain(s[dot + 1..])
  }

  ghost predicate EmailPattern(s: string)
  {
    exists at, dot :: EmailAt(s, at, dot)
  }

  /** The first index of c in s, if c occurs. */
  function IndexOf(s: string, c: char): (r: Option<nat>)
    ensures r.None? <==> c !in s
    ensures r.Some? ==> r.value < |s| && s[r.value] == c && c !in s[..r.value]
  {
    if s == [] then None
    else if s[0] == c then Some(0)
    else
      match IndexOf(s[1..], c)
      case None => None
      case Some(k) =>
        assert s[..k + 1] == [s[0]] + s[1..][..k];
        Some(k + 1)
  }

  /** A "." with at least one character on each side. */
  predicate InnerDot(d: string)
  {
    exists i :: 0 < i < |d| - 1 && d[i] == '.'
  }

  /** The scan `isValidEmail` amounts to: no white space anywhere, exactly
      one "@" with something before it, and after it a "." that has text on
      both sides. */
  predicate EmailScan(s: string)
  {
    && (forall k :: 0 <= k < |s| ==> !IsSpace(s[k]))
    && match IndexOf(s, '@')
       case None => false
       case Some(at) => at > 0 && '@' !in s[at + 1..] && InnerDot(s[at + 1..])
  }

  /** `isValidEmail` (and the "email" rule): the address matches the
      regular expression. */
  function IsValidEmail(s: string): (r: bool)
    ensures r <==> EmailPattern(s)
  {
    EmailIff(s);
    EmailScan(s)
  }

  /** The scan agrees with the regular expression on every string. */
  lemma EmailIff(s: string)
    ensures EmailScan(s) <==> EmailPattern(s)
  {
    if EmailScan(s) {
      EmailMatches(s);
    }
    if EmailPattern(s) {
      var at, dot :| EmailAt(s, at, dot);
      EmailAccepted(s, at, dot);
    }
  }

  lemma EmailMatches(s: string)
    requires EmailScan(s)
    ensures EmailPattern(s)
  {
    var at := IndexOf(s, '@').value;
    var d := s[at + 1..];
    var i :| 0 < i < |d| - 1 && d[i] == '.';
    var dot := at + 1 + i;
    assert s[dot] == '.';
    assert s[at + 1..dot] == d[..i];
    assert s[dot + 1..] == d[i + 1..];
    assert EmailAt(s, at, dot);
  }

  lemma EmailAccepted(s: string, at: int, dot: int)
    requires EmailAt(s, at, dot)
    ensures EmailScan(s)
  {
    assert '@' !in s[..at];
    assert IndexOf(s, '@') == Some(at);
    var d := s[at + 1..];
    assert d[dot - at - 1] == '.';
    forall k | 0 <= k < |d|
      ensures d[k] != '@'
    {
      if k < dot - at - 1 {
        assert d[k] == s[at + 1..dot][k];
      } else if k > dot - at - 1 {
        assert d[k] == s[dot + 1..][k - (dot - at)];
      }
    }
    forall k | 0 <= k < |s|
      ensures !IsSpace(s[k])
    {
      if k < at {
        assert s[k] == s[..at][k];
      } else if at < k < dot {
        assert s[k] == s[at + 1..dot][k - at - 1];
      } else if k > dot {
        assert s[k] == s[dot + 1..][k - dot - 1];
      }
    }
  }

  /** What a valid address looks like: no white space, an "@" that is the
      only one and not the first character, and a "." after it with text
      on both sides. */
  lemma EmailShape(s: string)
    requires IsValidEmail(s)
    ensures forall k :: 0 <= k < |s| ==> !IsSpace(s[k])
    ensures exists at ::
      && 0 < at < |s| && s[at] == '@'
      && (forall k :: 0 <= k < |s| && k != at ==> s[k] != '@')
      && InnerDot(s[at + 1..])
  {
    var at := IndexOf(s, '@').value;
    forall k | 0 <= k < |s| && k != at
      ensures s[k] != '@'
    {
      if k < at {
        assert s[k] == s[..at][k];
      } else {
        assert s[k] == s[at + 1..][k - at - 1];
      }
    }
  }

  // ---------------------------------------------------------------------------
  // Phone: /^[\+]?[1-9][\d]{0,15}$/ after removing /[\s\-\(\)]/g

  /** The characters removed before the phone pattern is tried. */
  predicate Separator(c: char)
  {
    IsSpace(c) || c == '-' || c == '(' || c == ')'
  }

  /** `phone.replace(/[\s\-\(\)]/g, '')`: every separator removed, every
      other character kept in order. */
  function StripSeparators(s: string): (r: string)
    ensures forall k :: 0 <= k < |r| ==> !Separator(r[k])
    ensures forall c :: multiset(r)[c] == if Separator(c) then 0 else multiset(s)[c]
    ensures Subseq(r, s)
  {
    if s == [] then []
    else
      var rest := StripSeparators(s[1..]);
      assert s == [s[0]] + s[1..];
      if Separator(s[0]) then rest else [s[0]] + rest
  }

  /** The phone pattern proper: an optional "+", a digit 1 to 9, then at
      most fifteen digits. */
  predicate PhoneDigits(t: string)
  {
    var d := if t != [] && t[0] == '+' then t[1..] else t;
    && 1 <= |d| <= 16
    && '1' <= d[0] <= '9'
    && forall k :: 0 <= k < |d| ==> IsDigit(d[k])
  }

  /** `isValidPhone` (and the "phone" rule): the pattern tried on the number
      with its separators removed. An accepted number holds 1 to 16 digits
      and nothing but digits, separators and "+". */
  function IsValidPhone(s: string): (r: bool)
    ensures r <==> PhoneDigits(StripSeparators(s))
    ensures r ==> 1 <= DigitCount(s) <= 16
    ensures r ==> forall k :: 0 <= k < |s| ==> IsDigit(s[k]) || Separator(s[k]) || s[k] == '+'
  {
    if PhoneDigits(StripSeparators(s)) then
      PhoneDigitCount(s);
      true
    else
      false
  }

  /** The number of decimal digits in s. */
  function DigitCount(s: string): nat
  {
    if s == [] then 0 else (if IsDigit(s[0]) then 1 else 0) + DigitCount(s[1..])
  }

  lemma {:induction false} DigitCountSplit(a: string, b: string)
    ensures DigitCount(a + b) == DigitCount(a) + DigitCount(b)
    decreases |a|
  {
    if a != [] {
      assert (a + b)[1..] == a[1..] + b;
      DigitCountSplit(a[1..], b);
    } else {
      assert a + b == b;
    }
  }

  lemma {:induction false} DigitCountAll(s: string)
    requires forall k :: 0 <= k < |s| ==> IsDigit(s[k])
    ensures DigitCount(s) == |s|
    decreases |s|
  {
    if s != [] {
      DigitCountAll(s[1..]);
    }
  }

  lemma {:induction false} DigitCountStrip(s: string)
    ensures DigitCount(StripSeparators(s)) == DigitCount(s)
    decreases |s|
  {
    if s != [] {
      DigitCountStrip(s[1..]);
      var rest := StripSeparators(s[1..]);
      if !Separator(s[0]) {
        assert ([s[0]] + rest)[1..] == rest;
      }
    }
  }

  /** An accepted phone number has between 1 and 16 digits, and besides
      them only separators and "+" signs. */
  lemma PhoneDigitCount(s: string)
    requires PhoneDigits(StripSeparators(s))
    ensures 1 <= DigitCount(s) <= 16
    ensures forall k :: 0 <= k < |s| ==> IsDigit(s[k]) || Separator(s[k]) || s[k] == '+'
  {
    var t := StripSeparators(s);
    PhoneDigitsCount(t);
    DigitCountStrip(s);
    forall k | 0 <= k < |s| && !Separator(s[k])
      ensures IsDigit(s[k]) || s[k] == '+'
    {
      KeptChar(s, k);
      PhoneDigitsChars(t);
    }
  }

  lemma PhoneDigitsCount(t: string)
    requires PhoneDigits(t)
    ensures 1 <= DigitCount(t) <= 16
  {
    var d := if t != [] && t[0] == '+' then t[1..] else t;
    DigitCountAll(d);
    if t != [] && t[0] == '+' {
      DigitCountSplit([t[0]], d);
      assert [t[0]] + d == t;
    }
  }

  lemma PhoneDigitsChars(t: string)
    requires PhoneDigits(t)
    ensures forall c :: c in t ==> IsDigit(c) || c == '+'
  {
    var d := if t != [] && t[0] == '+' then t[1..] else t;
    forall j | 0 <= j < |t|
      ensures IsDigit(t[j]) || t[j] == '+'
    {
      if t != [] && t[0] == '+' && j > 0 {
        assert t[j] == d[j - 1];
      }
    }
  }

  /** A character that is not a separator survives the stripping. */
  lemma KeptChar(s: string, k: int)
    requires 0 <= k < |s| && !Separator(s[k])
    ensures s[k] in StripSeparators(s)
  {
    assert s[k] in multiset(s);
  }

  // ---------------------------------------------------------------------------
  // Rules

  /** How JavaScript renders a rule value that may be missing: the string
      itself, or "undefined". */
  function ValueText(v: Option<string>): string
  {
    match v
    case None => "undefined"
    case Some(t) => t
  }

  /** `validateRule(rule, value, ruleValue)`: "required" wants a non-empty
      value, "min" and "max" compare its length with the parsed number (a
      comparison with NaN is false), "email" and "phone" apply the patterns,
      and any other rule passes. */
  function ValidateRule(rule: string, value: string, ruleValue: Option<string>): (r: bool)
    ensures rule !in KnownRules ==> r
    ensures rule == "email" ==> (r <==> EmailPattern(value))
    ensures rule == "phone" ==> (r <==> PhoneDigits(StripSeparators(value)))
    ensures rule == "phone" && r ==> 1 <= DigitCount(value) <= 16
  {
    if rule == "required" then |value| > 0
    else if rule == "min" then
      match ParseInt(ValueText(ruleValue))
      case None => false
      case Some(n) => |value| >= n
    else if rule == "max" then
      match ParseInt(ValueText(ruleValue))
      case None => false
      case Some(n) => |value| <= n
    else if rule == "email" then IsValidEmail(value)
    else if rule == "phone" then IsValidPhone(value)
    else true
  }

  /** The rule names with a case of their own. */
  const KnownRules: set<string> := {"required", "min", "max", "email", "phone"}

  lemma RequiredIff(value: string, ruleValue: Option<string>)
    ensures ValidateRule("required", value, ruleValue) <==> |value| > 0
  {
  }

  /** "min:n" and "max:n" with n written in decimal bound the length. */
  lemma LengthRulesIff(value: string, n: int)
    ensures ValidateRule("min", value, Some(IntText(n))) <==> |value| >= n
    ensures ValidateRule("max", value, Some(IntText(n))) <==> |value| <= n
  {
    ParseIntText(n);
  }

  /** A "min" or "max" rule without a value compares with NaN and fails. */
  lemma LengthRulesWithoutValue(value: string)
    ensures !ValidateRule("min", value, None)
    ensures !ValidateRule("max", value, None)
  {
    UndefinedIsNaN();
  }

  lemma UndefinedIsNaN()
    ensures ParseInt("undefined") == None
  {
    var u := "undefined";
    assert forall k :: 0 <= k < |u| ==> !IsDigit(u[k]);
  }

  /** `getErrorMessage(rule, ruleValue)`. */
  function ErrorMessage(rule: string, ruleValue: Option<string>): (r: string)
    ensures rule !in KnownRules <==> r == "Invalid input"
  {
    if rule == "required" then "This field is required"
    else if rule == "min" then "Minimum " + ValueText(ruleValue) + " characters required"
    else if rule == "max" then "Maximum " + ValueText(ruleValue) + " characters allowed"
    else if rule == "email" then "Please enter a valid email address"
    else if rule == "phone" then "Please enter a valid phone number"
    else "Invalid input"
  }

  /** A failing rule is always one with its own message: every rule outside
      the known names passes, so the fallback text is never shown. */
  lemma FailingRuleMessage(rule: string, value: string, ruleValue: Option<string>)
    requires !ValidateRule(rule, value, ruleValue)
    ensures ErrorMessage(rule, ruleValue) != "Invalid input"
  {
  }

  /** The rules a field carries: none without the attribute, otherwise the
      attribute split at "|". */
  function RulesOf(validation: Option<string>): (r: seq<string>)
    ensures validation.None? ==> r == []
    ensures validation.Some? ==> |r| >= 1 && Join(r, '|') == validation.value
  {
    match validation
    case None => []
    case Some(v) => Split(v, '|')
  }

  /** `const [ruleName, ruleValue] = rule.split(':')`: the text before the
      first ":", and the text between it and the next ":" if there is one. */
  function RuleParts(rule: string): (r: (string, Option<string>))
    ensures ':' !in r.0 && r.0 <= rule
    ensures |r.0| == |rule| || rule[|r.0|] == ':'
    ensures r.1.None? <==> ':' !in rule
    ensures r.1.Some? ==> ':' !in r.1.value && r.0 + ":" + r.1.value <= rule
    ensures r.1.Some? ==>
      var end := |r.0| + 1 + |r.1.value|;
      end == |rule| || rule[end] == ':'
  {
    var pieces := Split(rule, ':');
    if |pieces| == 1 then
      (pieces[0], None)
    else
      var rest := Join(pieces[1..], ':');
      assert rule == pieces[0] + [':'] + rest;
      assert pieces[1..][1..] == pieces[2..];
      assert rest == pieces[1] || rest == pieces[1] + [':'] + Join(pieces[2..], ':');
      assert rule == (pieces[0] + ":" + pieces[1]) + rest[|pieces[1]|..];
      (pieces[0], Some(pieces[1]))
  }

  predicate RulePasses(rule: string, value: string)
  {
    ValidateRule(RuleParts(rule).0, value, RuleParts(rule).1)
  }

  /** The message shown when the rule fails. */
  function RuleMessage(rule: string): string
  {
    ErrorMessage(RuleParts(rule).0, RuleParts(rule).1)
  }

  /** Rule k is the first of the rules that the value fails. */
  predicate FirstFailing(rules: seq<string>, value: string, k: int)
  {
    && 0 <= k < |rules|
    && !RulePasses(rules[k], value)
    && forall j :: 0 <= j < k ==> RulePasses(rules[j], value)
  }

  /** The first i rules pass on the value. */
  predicate AllPass(rules: seq<string>, value: string, i: int)
  {
    forall j :: 0 <= j < i && j < |rules| ==> RulePasses(rules[j], value)
  }

  lemma AllPassStep(rules: seq<string>, value: string, i: int)
    requires 0 <= i < |rules| && AllPass(rules, value, i) && RulePasses(rules[i], value)
    ensures AllPass(rules, value, i + 1)
  {
  }

  /** `validateField`: trims the field's value and tries its rules in
      order. The first failing rule stops the check, and its message is
      the one shown; a field whose rules all pass is valid and shows none. */
  method ValidateField(validation: Option<string>, fieldValue: string) returns (valid: bool, shown: Option<string>)
    ensures valid <==> forall k :: 0 <= k < |RulesOf(validation)| ==> RulePasses(RulesOf(validation)[k], Trim(fieldValue))
    ensures valid ==> shown == None
    ensures !valid ==> exists k ::
      FirstFailing(RulesOf(validation), Trim(fieldValue), k) && shown == Some(RuleMessage(RulesOf(validation)[k]))
  {
    var value := Trim(fieldValue);
    var rules := RulesOf(validation);
    for i := 0 to |rules|
      invariant AllPass(rules, value, i)
    {
      if !RulePasses(rules[i], value) {
        assert FirstFailing(rules, value, i);
        return false, Some(RuleMessage(rules[i]));
      }
      AllPassStep(rules, value, i);
    }
    return true, None;
  }
}
