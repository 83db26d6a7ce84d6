/**
 * The rule catalog and the warn command's reason resolution
 * (bot_warnings_cog.py:184-196): a numeric reason that names a rule becomes
 * that rule's text; anything else is kept verbatim.
 */
module Rules {
  import opened Wrappers

  /** One directive of a specific-action rule; only its `type` is kept, since directives are logged and never run. */
  datatype Directive = Directive(kind: string)

  /** `action_type`; any value other than the two the catalog uses, or none, is `Unspecified`. */
  datatype ActionType = GeneralViolation | SpecificAction | Unspecified

  /**
   * A rule of the catalog. `id` is `None` when the key is absent or not a
   * string, since only a string can equal the typed id. `text` is `None` when
   * the key is absent; otherwise it is the stored value as the f-string renders
   * it, so a stored null is the text "None". `actions` is `[]` when absent.
   */
  datatype Rule = Rule(id: Option<string>, text: Option<string>, actionType: ActionType, actions: seq<Directive>)

  /** The outcome of resolving the moderator's input: displayed reason, matched rule, captured directives. */
  datatype Resolution = Resolution(displayed: string, matched: Option<string>, actions: seq<Directive>)

  const RulePrefix: string := "规则 "
  const MissingRuleText: string := "规则描述未找到。"

  /** The ASCII characters Python's `str.strip()` removes: space, tab to carriage return, and the separators U+001C to U+001F. */
  predicate IsSpace(c: char) {
    c == ' ' || '\t' <= c <= '\r' || '\U{1C}' <= c <= '\U{1F}'
  }

  predicate IsDigits(s: string) {
    |s| > 0 && forall k :: 0 <= k < |s| ==> '0' <= s[k] <= '9'
  }

  /** The length of the run of whitespace at the front of `s`. */
  function LeadingSpaces(s: string): (n: nat)
    ensures n <= |s|
    ensures forall k :: 0 <= k < n ==> IsSpace(s[k])
    ensures n < |s| ==> !IsSpace(s[n])
  {
    if s == [] || !IsSpace(s[0]) then 0 else 1 + LeadingSpaces(s[1..])
  }

  /** The length of the run of whitespace at the end of `s`. */
  function TrailingSpaces(s: string): (n: nat)
    ensures n <= |s|
    ensures forall k :: |s| - n <= k < |s| ==> IsSpace(s[k])
    ensures n < |s| ==> !IsSpace(s[|s| - 1 - n])
  {
    if s == [] || !IsSpace(s[|s| - 1]) then 0 else 1 + TrailingSpaces(s[..|s| - 1])
  }

  /** `s.strip()`: the slice of `s` left after removing whitespace at both ends. */
  function Strip(s: string): (r: string)
    ensures exists i, j ::
              && 0 <= i <= j <= |s| && r == s[i..j]
              && (forall k :: 0 <= k < i ==> IsSpace(s[k]))
              && (forall k :: j <= k < |s| ==> IsSpace(s[k]))
    ensures r != [] ==> !IsSpace(r[0]) && !IsSpace(r[|r| - 1])
  {
    var a := LeadingSpaces(s);
    if a == |s| then (assert s[|s|..|s|] == []; [])
    else
      var b := |s| - TrailingSpaces(s);
      s[a..b]
  }

  /** The index of the first rule whose id is `id` (Python's `next(...)` over the rules). */
  function FindRule(rules: seq<Rule>, id: string): (k: Option<nat>)
    ensures k.Some? ==> k.value < |rules| && rules[k.value].id == Some(id)
    ensures k.Some? ==> forall j :: 0 <= j < k.value ==> rules[j].id != Some(id)
    ensures k.None? <==> forall j :: 0 <= j < |rules| ==> rules[j].id != Some(id)
  {
    if rules == [] then None
    else if rules[0].id == Some(id) then Some(0)
    else match FindRule(rules[1..], id)
      case None => None
      case Some(j) => Some(j + 1)
  }

  /**
   * The reason resolution of the warn command: when the stripped input is all
   * digits and names a rule, the displayed reason is "规则 {id}: {text}" of the
   * first such rule, that rule is matched and its directives are captured if it
   * is a specific-action rule; otherwise the input is kept verbatim, unmatched.
   */
  function ResolveReason(raw: string, rules: seq<Rule>): (res: Resolution)
    ensures res.matched.Some? <==>
      IsDigits(Strip(raw)) && exists k :: 0 <= k < |rules| && rules[k].id == Some(Strip(raw))
    ensures res.matched.None? ==> res.displayed == raw && res.actions == []
    ensures res.matched.Some? ==>
      && res.matched.value == Strip(raw)
      && IsDigits(res.matched.value)
      && var k := FindRule(rules, res.matched.value).value;
      && res.displayed == RulePrefix + res.matched.value + ": " + rules[k].text.GetOr(MissingRuleText)
      && res.actions == (if rules[k].actionType == SpecificAction then rules[k].actions else [])
  {
    var id := Strip(raw);
    if !IsDigits(id) then Resolution(raw, None, [])
    else match FindRule(rules, id)
      case None => Resolution(raw, None, [])
      case Some(k) =>
        var rule := rules[k];
        Resolution(
          RulePrefix + id + ": " + rule.text.GetOr(MissingRuleText),
          Some(id),
          if rule.actionType == SpecificAction then rule.actions else [])
  }
}
