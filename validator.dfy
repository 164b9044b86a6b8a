/** The `Validator` of src/index.js: a registry of named rule methods and
    their messages shared by every validator, the parsing of rule strings
    such as `minlength:5:1` into rules, and `check`, which applies the first
    rule to a value and returns `true` or the rule's filled-in message. */
module Validators {
  import opened Common
  import opened JsNumbers
  import Ranges
  import Formats

  /** The values `check` is given: numbers and strings. */
  datatype Value = NumV(n: Num) | StrV(s: string)

  // ---------------------------------------------------------------------------
  // Comparing strings as JavaScript does
  // ---------------------------------------------------------------------------

  /** `a < b` on two strings: the first differing character decides, and a
      proper prefix is smaller. */
  predicate TextLess(a: string, b: string)
    decreases |a|
  {
    if b == [] then false
    else if a == [] then true
    else if a[0] != b[0] then a[0] < b[0]
    else TextLess(a[1..], b[1..])
  }

  /** `a <= b` on two strings, which JavaScript evaluates as `!(b < a)`. */
  predicate TextLessEq(a: string, b: string) {
    !TextLess(b, a)
  }

  /** The string order is a strict total order. */
  lemma {:induction false} TextLessTotal(a: string, b: string)
    ensures !(TextLess(a, b) && TextLess(b, a))
    ensures a != b ==> TextLess(a, b) || TextLess(b, a)
    ensures !TextLess(a, a)
    decreases |a|
  {
    if a != [] && b != [] {
      if a[0] == b[0] {
        TextLessTotal(a[1..], b[1..]);
        if a != b {
          assert a[1..] != b[1..] by {
            assert a == [a[0]] + a[1..] && b == [b[0]] + b[1..];
          }
        }
      } else {
        TextLessTotal(a[1..], a[1..]);
      }
    } else if a != [] {
      TextLessTotal(a[1..], a[1..]);
    }
  }

  lemma {:induction false} TextLessTransitive(a: string, b: string, c: string)
    requires TextLess(a, b) && TextLess(b, c)
    ensures TextLess(a, c)
    decreases |a|
  {
    if a != [] && a[0] == b[0] && b[0] == c[0] {
      TextLessTransitive(a[1..], b[1..], c[1..]);
    }
  }

  /** `<=` on strings is `<` or equality. */
  lemma TextLessEqMeans(a: string, b: string)
    ensures TextLessEq(a, b) <==> a == b || TextLess(a, b)
  {
    TextLessTotal(a, b);
  }

  // ---------------------------------------------------------------------------
  // The comparison rules
  // ---------------------------------------------------------------------------

  /** `param`: the first text after the rule name, `undefined` when there is none. */
  function Param(params: seq<string>): Option<string> {
    if |params| > 0 then Some(params[0]) else None
  }

  /** `include`: the second text after the rule name, truthy when present and not empty. */
  predicate Inclusive(params: seq<string>) {
    |params| > 1 && params[1] != ""
  }

  /** A number compared with `param` sees `Number(param)`, and `NaN` for `undefined`. */
  function ParamNumber(params: seq<string>): Num {
    if |params| > 0 then StringToNumber(params[0]) else NaN
  }

  /** `value.length`: the length of a string, `undefined` (compared as `NaN`) for a number. */
  function Length(v: Value): Num {
    match v
    case StrV(s) => Finite(|s| as real)
    case NumV(_) => NaN
  }

  /** `value >= param`, or `value > param` when not inclusive. Against a string
      `param` a number compares with `Number(param)` and a string compares as
      text; against `undefined` every comparison is false. */
  predicate Above(v: Value, p: Option<string>, inclusive: bool) {
    match p
    case None => false
    case Some(t) =>
      match v
      case NumV(n) => if inclusive then LessEq(StringToNumber(t), n) else Less(StringToNumber(t), n)
      case StrV(s) => if inclusive then TextLessEq(t, s) else TextLess(t, s)
  }

  /** `value <= param`, or `value < param` when not inclusive. */
  predicate Below(v: Value, p: Option<string>, inclusive: bool) {
    match p
    case None => false
    case Some(t) =>
      match v
      case NumV(n) => if inclusive then LessEq(n, StringToNumber(t)) else Less(n, StringToNumber(t))
      case StrV(s) => if inclusive then TextLessEq(s, t) else TextLess(s, t)
  }

  /** `minlength`: `value.length >= param`, or `>` when not inclusive. Only
      a string with a numeric bound can pass. */
  function MinLength(v: Value, params: seq<string>): (ok: bool)
    ensures ok ==> v.StrV? && |params| > 0 && !StringToNumber(params[0]).NaN?
  {
    if Inclusive(params) then LessEq(ParamNumber(params), Length(v)) else Less(ParamNumber(params), Length(v))
  }

  /** `maxlength`: `value.length <= param`, or `<` when not inclusive. */
  function MaxLength(v: Value, params: seq<string>): (ok: bool)
    ensures ok ==> v.StrV? && |params| > 0 && !StringToNumber(params[0]).NaN?
  {
    if Inclusive(params) then LessEq(Length(v), ParamNumber(params)) else Less(Length(v), ParamNumber(params))
  }

  /** `min`: `value >= param`, or `>` when not inclusive. Nothing passes
      against a missing bound, and no `NaN` passes. */
  function Min(v: Value, params: seq<string>): (ok: bool)
    ensures ok ==> |params| > 0 && (v.NumV? ==> !v.n.NaN? && !StringToNumber(params[0]).NaN?)
  {
    Above(v, Param(params), Inclusive(params))
  }

  /** `max` as src/index.js writes it: the strict branch compares `value.length`. */
  function MaxAsWritten(v: Value, params: seq<string>): (ok: bool)
    ensures ok ==> |params| > 0
    ensures ok && !Inclusive(params) ==> v.StrV?
  {
    if Inclusive(params) then Below(v, Param(params), true) else Less(Length(v), ParamNumber(params))
  }

  /** `max` as its message describes it: the value itself is compared in both branches. */
  function Max(v: Value, params: seq<string>): (ok: bool)
    ensures ok ==> |params| > 0 && (v.NumV? ==> !v.n.NaN? && !StringToNumber(params[0]).NaN?)
  {
    Below(v, Param(params), Inclusive(params))
  }

  /** The number a value stands for when `range` compares it with `Number(bound)`. */
  function Numeric(v: Value): Num {
    match v
    case NumV(n) => n
    case StrV(s) => StringToNumber(s)
  }

  /** `minlength:n` passes a string of more than `n` characters, or of `n` or
      more when `include` is given; `maxlength:n` the mirror image. */
  lemma LengthRules(s: string, n: nat, flag: string)
    ensures MinLength(StrV(s), [NatToString(n)]) <==> |s| > n
    ensures MaxLength(StrV(s), [NatToString(n)]) <==> |s| < n
    ensures flag != "" ==> (MinLength(StrV(s), [NatToString(n), flag]) <==> |s| >= n)
    ensures flag != "" ==> (MaxLength(StrV(s), [NatToString(n), flag]) <==> |s| <= n)
  {
    NatToStringNumber(n);
  }

  /** `minlength` and `maxlength` never both pass a number: its `length` is `undefined`. */
  lemma LengthRulesRejectNumbers(n: Num, params: seq<string>)
    ensures !MinLength(NumV(n), params) && !MaxLength(NumV(n), params)
  {
  }

  /** `min:n` passes a number above `n` (at or above when inclusive); the
      corrected `max:n` one below `n` (at or below when inclusive). */
  lemma NumberRules(x: real, n: nat, flag: string)
    ensures Min(NumV(Finite(x)), [NatToString(n)]) <==> x > n as real
    ensures Max(NumV(Finite(x)), [NatToString(n)]) <==> x < n as real
    ensures flag != "" ==> (Min(NumV(Finite(x)), [NatToString(n), flag]) <==> x >= n as real)
    ensures flag != "" ==> (Max(NumV(Finite(x)), [NatToString(n), flag]) <==> x <= n as real)
  {
    NatToStringNumber(n);
  }

  /** Off `NaN`, an inclusive `min` and a strict `max` with the same bound are
      exact complements, for numbers and for texts. */
  lemma MinMaxComplement(v: Value, t: string, flag: string)
    requires flag != ""
    requires v.NumV? ==> !v.n.NaN? && !StringToNumber(t).NaN?
    ensures Min(v, [t, flag]) <==> !Max(v, [t])
  {
    if v.NumV? {
      OrderTotal(v.n, StringToNumber(t));
    } else {
      TextLessTotal(t, v.s);
    }
  }

  /** The strict branch of `max` as written rejects every number, since a
      number has no `length`. */
  lemma MaxAsWrittenRejectsNumbers(n: Num, params: seq<string>)
    requires !Inclusive(params)
    ensures !MaxAsWritten(NumV(n), params)
  {
  }

  /** `max:5` rejects 3 as written and accepts it as intended. */
  lemma MaxAsWrittenCounterexample()
    ensures !MaxAsWritten(NumV(Finite(3.0)), ["5"])
    ensures Max(NumV(Finite(3.0)), ["5"])
  {
    NumberRules(3.0, 5, "");
    assert NatToString(5) == "5";
  }

  // ---------------------------------------------------------------------------
  // Methods and messages
  // ---------------------------------------------------------------------------

  /** What `methods[name]` holds. The built-in rules that compare are modelled
      one by one; the other built-ins (`required`, `email`, `url`, `date`,
      `number`, `digits`, `step`) are `Library` rules whose answer the
      registry is given. A function passed to `addMethod` is `Custom`; a value
      that is not a function is `Inert`, with its truthiness. */
  datatype Method =
    | MinLengthRule | MaxLengthRule | MinRule | MaxRule | RangeRule | RangeLengthRule | EqualToRule
    | Library(name: string)
    | Custom(test: (Value, seq<string>) -> Result<bool>)
    | Inert(truthy: bool)

  /** `if (this.methods[name])`: functions are truthy. */
  predicate Present(m: Method) {
    !m.Inert? || m.truthy
  }

  /** `methods[name].apply(this, [value].concat(params))`, an exception of the
      rule being an `Err`. */
  function Apply(m: Method, v: Value, params: seq<string>, given: (string, Value, seq<string>) -> bool): (r: Result<bool>)
    ensures r.Err? ==> m.RangeRule? || m.RangeLengthRule? || m.Custom? || m.Inert?
    ensures m.Inert? ==> r == Err(TypeError)
    ensures (m.RangeRule? || m.RangeLengthRule?) && params == [] ==> r == Err(TypeError)
    ensures m.RangeLengthRule? && params != [] ==>
              (r.Err? <==> Ranges.Intervals(Ranges.Tokens(params[0], false)).Err?)
  {
    match m
    case MinLengthRule => Ok(MinLength(v, params))
    case MaxLengthRule => Ok(MaxLength(v, params))
    case MinRule => Ok(Min(v, params))
    case MaxRule => Ok(MaxAsWritten(v, params))
    case RangeRule =>
      // `range(value, undefined)` reads `undefined.length`
      if |params| == 0 then Err(TypeError) else Ranges.Validation(Numeric(v), params[0])
    case RangeLengthRule =>
      // `range(String(value).length, undefined)` reads `undefined.length`
      if |params| == 0 then Err(TypeError)
      else if v.StrV? then Ranges.Validation(Finite(|v.s| as real), params[0])
      // the text `String(n)` of a number is not modelled: the range's errors
      // are kept, and whether its length lies inside the range is given
      else if Ranges.Intervals(Ranges.Tokens(params[0], false)).Err? then
        Err(Ranges.Intervals(Ranges.Tokens(params[0], false)).error)
      else Ok(given("rangelength", v, params))
    case EqualToRule => Ok(v.StrV? && Param(params) == Some(v.s))
    case Library(name) => Ok(given(name, v, params))
    case Custom(test) => test(v, params)
    case Inert(_) => Err(TypeError)   // a value that is not a function has no `apply`
  }

  /** `range:[1,5]` on a string compares the number the string reads as. */
  lemma RangeRuleOnText(s: string, range: string, given: (string, Value, seq<string>) -> bool)
    ensures Apply(RangeRule, StrV(s), [range], given) == Apply(RangeRule, NumV(StringToNumber(s)), [range], given)
    ensures Apply(RangeRule, StrV(s), [range], given) == Ranges.Validation(StringToNumber(s), range)
  {
  }

  /** `rangelength:r` tests the length of a text against the range expression. */
  lemma RangeLengthOnText(s: string, range: string, given: (string, Value, seq<string>) -> bool)
    ensures Apply(RangeLengthRule, StrV(s), [range], given) == Ranges.Validation(Finite(|s| as real), range)
    ensures Apply(RangeLengthRule, StrV(s), [range], given).Ok? ==>
              (Apply(RangeLengthRule, StrV(s), [range], given).value
               <==> exists k :: 0 <= k < |Ranges.Intervals(Ranges.Tokens(range, false)).value|
                                && Ranges.Admits(Ranges.Intervals(Ranges.Tokens(range, false)).value[k], Finite(|s| as real)))
  {
    var r := Ranges.Validation(Finite(|s| as real), range);
    assert Apply(RangeLengthRule, StrV(s), [range], given) == r;
  }

  /** `rangelength:[5,1]` throws the range engine's error for its first
      clause, whatever the value. */
  lemma RangeLengthDisordered(v: Value, given: (string, Value, seq<string>) -> bool)
    ensures Apply(RangeLengthRule, v, ["[5,1]"], given) == Err(RangeError("Range Error at 0 for " + "[5, 1]"))
  {
    Ranges.DisorderedText();
  }

  /** `equalTo:t` passes exactly the string `t`. */
  lemma EqualToMeans(v: Value, params: seq<string>, given: (string, Value, seq<string>) -> bool)
    ensures Apply(EqualToRule, v, params, given) == Ok(|params| > 0 && v == StrV(params[0]))
  {
  }

  /** A message: `undefined`, `null`, a text, `format(source)` (the curried
      template of the built-in messages), or some other function of the params. */
  datatype Message = Unset | Null | Plain(text: string) | Template(source: string) | Callback(render: seq<string> -> string)

  predicate Truthy(m: Message) {
    match m
    case Unset => false
    case Null => false
    case Plain(t) => t != ""
    case _ => true
  }

  function Lookup(messages: map<string, Message>, name: string): Message {
    if name in messages then messages[name] else Unset
  }

  /** The table `Validator.prototype.methods` starts with. */
  function Builtins(): map<string, Method> {
    map[
      "required" := Library("required"), "email" := Library("email"), "url" := Library("url"),
      "date" := Library("date"), "number" := Library("number"), "digits" := Library("digits"),
      "minlength" := MinLengthRule, "maxlength" := MaxLengthRule, "rangelength" := RangeLengthRule,
      "min" := MinRule, "max" := MaxRule, "range" := RangeRule, "step" := Library("step"),
      "equalTo" := EqualToRule]
  }

  /** The text around `{0}` in the built-in `minlength` message. */
  const MinLengthBefore: string := "\U{6700}\U{5c11}\U{8981}\U{8f93}\U{5165} "
  const MinLengthAfter: string := " \U{4e2a}\U{5b57}\U{7b26}"

  /** The text around `{0}` in the built-in `max` message. */
  const MaxBefore: string := "\U{8bf7}\U{8f93}\U{5165}\U{4e0d}\U{5927}\U{4e8e} "
  const MaxAfter: string := " \U{7684}\U{6570}\U{503c}"

  /** The table `Validator.prototype.messages` starts with. */
  function DefaultMessages(): map<string, Message> {
    map[
      "required" := Plain("\U{8fd9}\U{662f}\U{5fc5}\U{586b}\U{5b57}\U{6bb5}"),
      "email" := Plain("\U{8bf7}\U{8f93}\U{5165}\U{6709}\U{6548}\U{7684}\U{7535}\U{5b50}\U{90ae}\U{4ef6}\U{5730}\U{5740}"),
      "url" := Plain("\U{8bf7}\U{8f93}\U{5165}\U{6709}\U{6548}\U{7684}\U{7f51}\U{5740}"),
      "date" := Plain("\U{8bf7}\U{8f93}\U{5165}\U{6709}\U{6548}\U{7684}\U{65e5}\U{671f}"),
      "number" := Plain("\U{8bf7}\U{8f93}\U{5165}\U{6709}\U{6548}\U{7684}\U{6570}\U{5b57}"),
      "digits" := Plain("\U{53ea}\U{80fd}\U{8f93}\U{5165}\U{6570}\U{5b57}"),
      "equalTo" := Plain("\U{4f60}\U{7684}\U{8f93}\U{5165}\U{4e0d}\U{76f8}\U{540c}"),
      "maxlength" := Template("\U{6700}\U{591a}\U{53ef}\U{4ee5}\U{8f93}\U{5165} {0} \U{4e2a}\U{5b57}\U{7b26}"),
      "minlength" := Template(MinLengthBefore + "{0}" + MinLengthAfter),
      "rangelength" := Template("\U{8bf7}\U{8f93}\U{5165}\U{957f}\U{5ea6}\U{5728} {0} \U{4e4b}\U{95f4}\U{7684}\U{5b57}\U{7b26}\U{4e32}"),
      "range" := Template("\U{8bf7}\U{8f93}\U{5165}\U{8303}\U{56f4}\U{5728} {0} \U{4e4b}\U{95f4}\U{7684}\U{6570}\U{503c}"),
      "step" := Template("\U{8bf7}\U{8f93}\U{5165} {0} \U{7684}\U{6574}\U{6570}\U{500d}\U{503c}"),
      "max" := Template(MaxBefore + "{0}" + MaxAfter),
      "min" := Template("\U{8bf7}\U{8f93}\U{5165}\U{4e0d}\U{5c0f}\U{4e8e} {0} \U{7684}\U{6570}\U{503c}")]
  }

  /** `message != undefined ? message : this.messages[name]`: loose inequality
      also keeps the old message for `null`. */
  function Kept(messages: map<string, Message>, name: string, message: Message): Message {
    if message.Unset? || message.Null? then Lookup(messages, name) else message
  }

  /** The methods and messages every validator shares (they live on
      `Validator.prototype`). */
  class Registry {
    var methods: map<string, Method>
    var messages: map<string, Message>
    /** The answers of the `Library` rules. */
    const given: (string, Value, seq<string>) -> bool

    constructor(given: (string, Value, seq<string>) -> bool)
      ensures methods == Builtins() && messages == DefaultMessages() && this.given == given
    {
      methods := Builtins();
      messages := DefaultMessages();
      this.given := given;
    }

    /** `addMethod(name, method, message)`. */
    method AddMethod(name: string, m: Method, message: Message)
      modifies this
      ensures methods == old(methods)[name := m]
      ensures messages == old(messages)[name := Kept(old(messages), name, message)]
    {
      methods := methods[name := m];
      messages := messages[name := if message.Unset? || message.Null? then Lookup(messages, name) else message];
    }
  }

  /** After `addMethod`, a rule of that name is accepted exactly when the
      method is truthy, and the message is the new one unless it was
      `undefined` or `null`. */
  lemma AddedMethodKnown(methods: map<string, Method>, messages: map<string, Message>, name: string, m: Method, message: Message)
    ensures Known(methods[name := m], name) <==> Present(m)
    ensures Truthy(message) ==> Kept(messages, name, message) == message
    ensures !message.Unset? && !message.Null? ==> Kept(messages, name, message) == message
    ensures message.Unset? || message.Null? ==> Kept(messages, name, message) == Lookup(messages, name)
  {
  }

  // ---------------------------------------------------------------------------
  // Rules
  // ---------------------------------------------------------------------------

  /** A rule as `addRule` is given it: `{name: 'minlength:5', message}`. */
  datatype RuleSpec = RuleSpec(name: string, message: Message)

  /** A rule as `this.rules` holds it. */
  datatype Entry = Entry(name: string, params: seq<string>, message: Message)

  predicate Known(methods: map<string, Method>, name: string) {
    name in methods && Present(methods[name])
  }

  function TrimAll(ps: seq<string>): (ts: seq<string>)
    ensures |ts| == |ps| && forall k :: 0 <= k < |ps| ==> ts[k] == Trim(ps[k])
  {
    if ps == [] then [] else [Trim(ps[0])] + TrimAll(ps[1..])
  }

  /** The method name of a rule string: what precedes the first `:`. */
  function Head(name: string): string {
    Formats.Split(name, ":")[0]
  }

  /** The rule `addRule` appends: the head as name, the trimmed texts after it as params. */
  function EntryOf(r: RuleSpec): Entry {
    var pieces := Formats.Split(r.name, ":");
    Entry(pieces[0], TrimAll(pieces[1..]), r.message)
  }

  function Refusal(head: string): Outcome {
    Fail(NotFound("Not Found [" + head + "] in Validator"))
  }

  /** Before trimming, the name and params of a rule joined with `:` give the rule string back. */
  lemma RuleStringRoundTrip(name: string)
    ensures var pieces := Formats.Split(name, ":");
            Formats.Join([Head(name)] + pieces[1..], ":") == name
  {
    var pieces := Formats.Split(name, ":");
    assert [pieces[0]] + pieces[1..] == pieces;
    Formats.SplitJoinRoundTrip(name, ":");
  }

  /** A rule string without `:` is a bare method name with no params. */
  lemma BareRuleName(r: RuleSpec)
    requires forall k :: 0 <= k < |r.name| ==> r.name[k] != ':'
    ensures EntryOf(r) == Entry(r.name, [], r.message) && Head(r.name) == r.name
  {
    Formats.SplitAbsent(r.name, ":");
  }

  /** `name:rest` names the method `name`, and the params are the trimmed
      `:`-separated texts of `rest`. */
  lemma RuleWithParams(name: string, rest: string, message: Message)
    requires forall k :: 0 <= k < |name| ==> name[k] != ':'
    ensures EntryOf(RuleSpec(name + ":" + rest, message)) == Entry(name, TrimAll(Formats.Split(rest, ":")), message)
  {
    Formats.SplitAtFirst(name, ":", rest);
    assert ([name] + Formats.Split(rest, ":"))[1..] == Formats.Split(rest, ":");
  }

  /** The rules `addRules` appends for `specs`, in order, and how it ends: at
      the first unknown name it throws, keeping what it appended before. */
  function Adding(methods: map<string, Method>, specs: seq<RuleSpec>): (seq<Entry>, Outcome) {
    if specs == [] then ([], Pass)
    else if !Known(methods, Head(specs[0].name)) then ([], Refusal(Head(specs[0].name)))
    else
      var rest := Adding(methods, specs[1..]);
      ([EntryOf(specs[0])] + rest.0, rest.1)
  }

  /** `addRules` appends the rules of a prefix of `specs`, each under a known
      name; it ends normally exactly when that prefix is all of `specs`, and
      otherwise with the refusal of the next name, which is unknown. */
  lemma {:induction false} AddingMeans(methods: map<string, Method>, specs: seq<RuleSpec>, r: (seq<Entry>, Outcome))
    requires r == Adding(methods, specs)
    ensures |r.0| <= |specs|
    ensures forall k :: 0 <= k < |r.0| ==> r.0[k] == EntryOf(specs[k]) && Known(methods, Head(specs[k].name))
    ensures r.1.Pass? <==> |r.0| == |specs|
    ensures r.1.Fail? ==> !Known(methods, Head(specs[|r.0|].name)) && r.1 == Refusal(Head(specs[|r.0|].name))
  {
    if specs != [] && Known(methods, Head(specs[0].name)) {
      var rest := Adding(methods, specs[1..]);
      AddingMeans(methods, specs[1..], rest);
      assert r.0 == [EntryOf(specs[0])] + rest.0;
      forall k | 1 <= k < |r.0|
        ensures r.0[k] == EntryOf(specs[k]) && Known(methods, Head(specs[k].name))
      {
        assert r.0[k] == rest.0[k - 1] && specs[k] == specs[1..][k - 1];
      }
    }
  }

  /** One step of `Adding` over the suffix of `specs` from `i`. */
  lemma AddingStep(methods: map<string, Method>, specs: seq<RuleSpec>, i: nat)
    requires i < |specs|
    ensures Known(methods, Head(specs[i].name)) ==>
              Adding(methods, specs[i..]) == ([EntryOf(specs[i])] + Adding(methods, specs[i + 1..]).0, Adding(methods, specs[i + 1..]).1)
    ensures !Known(methods, Head(specs[i].name)) ==> Adding(methods, specs[i..]) == ([], Refusal(Head(specs[i].name)))
  {
    assert specs[i..][1..] == specs[i + 1..];
  }

  lemma Append<T>(a: seq<T>, b: seq<T>, c: seq<T>)
    ensures a + (b + c) == (a + b) + c
  {
  }

  /** What `addRules` is given: an array of rule strings and rules, or one rule. */
  datatype Item = Named(name: string) | Described(rule: RuleSpec)
  datatype Rules = Listed(items: seq<Item>) | Lone(rule: RuleSpec)

  /** A string element becomes the rule `{name: s}`. */
  function SpecOf(item: Item): RuleSpec {
    match item
    case Named(n) => RuleSpec(n, Unset)
    case Described(r) => r
  }

  function Specs(rs: Rules): (specs: seq<RuleSpec>)
    ensures rs.Lone? ==> specs == [rs.rule]
    ensures rs.Listed? ==> |specs| == |rs.items| && forall k :: 0 <= k < |specs| ==> specs[k] == SpecOf(rs.items[k])
  {
    match rs
    case Lone(r) => [r]
    case Listed(items) => seq(|items|, k requires 0 <= k < |items| => SpecOf(items[k]))
  }

  // ---------------------------------------------------------------------------
  // check
  // ---------------------------------------------------------------------------

  /** The regular expression `/\$?\{(\d+)\}/` matches at `i` without its `$`:
      `{`, at least one digit, `}`. */
  predicate PlaceholderAt(s: string, i: nat) {
    i < |s| && s[i] == '{' && DigitRunEnd(s, i + 1) > i + 1 && DigitRunEnd(s, i + 1) < |s| && s[DigitRunEnd(s, i + 1)] == '}'
  }

  function HasPlaceholderFrom(s: string, i: nat): (b: bool)
    requires i <= |s|
    ensures b <==> exists j :: i <= j < |s| && PlaceholderAt(s, j)
    decreases |s| - i
  {
    if i == |s| then false else PlaceholderAt(s, i) || HasPlaceholderFrom(s, i + 1)
  }

  /** `theregex.test(message)`. */
  function HasPlaceholder(s: string): (b: bool)
    ensures b <==> exists j :: 0 <= j < |s| && PlaceholderAt(s, j)
  {
    HasPlaceholderFrom(s, 0)
  }

  /** `s.replace(/\$?\{(\d+)\}/g, '{$1}')` from index `i`: a `$` right before
      a placeholder is dropped, everything else is kept. */
  function DropDollarsFrom(s: string, i: nat): string
    requires i <= |s|
    decreases |s| - i
  {
    if i == |s| then []
    else if s[i] == '$' && PlaceholderAt(s, i + 1) then DropDollarsFrom(s, i + 1)
    else [s[i]] + DropDollarsFrom(s, i + 1)
  }

  function DropDollars(s: string): string {
    DropDollarsFrom(s, 0)
  }

  lemma {:induction false} NoDollarKept(s: string, i: nat)
    requires i <= |s| && forall k :: i <= k < |s| ==> s[k] != '$'
    ensures DropDollarsFrom(s, i) == s[i..]
    decreases |s| - i
  {
    if i < |s| {
      NoDollarKept(s, i + 1);
      assert [s[i]] + s[i + 1..] == s[i..];
    }
  }

  /** A dropped `$` leaves its placeholder, and every other character stays. */
  lemma {:induction false} DropDollarsLength(s: string, i: nat)
    requires i <= |s|
    ensures |DropDollarsFrom(s, i)| <= |s| - i
    ensures forall k :: 0 <= k < |DropDollarsFrom(s, i)| ==> DropDollarsFrom(s, i)[k] in s[i..]
    decreases |s| - i
  {
    if i < |s| {
      DropDollarsLength(s, i + 1);
      var rest := DropDollarsFrom(s, i + 1);
      forall k | 0 <= k < |rest|
        ensures rest[k] in s[i..]
      {
        assert rest[k] in s[i + 1..];
        assert s[i + 1..] == s[i..][1..];
      }
    }
  }

  /** What `check` returns: `undefined` for an empty rule list, `true`, or a message. */
  datatype Verdict = NoRule | Passed | Reply(message: Message)

  /** A `format` result as a message: a curried template stays a function. */
  function Returned(f: Formats.Formatted): Message {
    match f
    case Curried(s) => Template(s)
    case Done(t) => Plain(t)
  }

  /** `rule.message || this.messages[rule.name]`. */
  function Chosen(rule: Entry, messages: map<string, Message>): Message {
    if Truthy(rule.message) then rule.message else Lookup(messages, rule.name)
  }

  /** The message of a failed rule after its params are put in. */
  function Filled(m: Message, params: seq<string>): Result<Message> {
    match m
    case Template(source) =>
      // the curried function prepends its source and calls `format`, which
      // throws only for a `null` first argument
      Ok(Returned(Formats.Formatting(source, Formats.Strings(params)).value))
    case Callback(render) => Ok(Plain(render(params)))
    case Plain(t) =>
      if HasPlaceholder(t) then
        Ok(Returned(Formats.Formatting(DropDollars(t), [Formats.Strs(params)]).value))
      else Ok(m)
    case _ => Ok(m)
  }

  /** What `check(value)` computes. */
  function Checked(rules: seq<Entry>, methods: map<string, Method>, messages: map<string, Message>,
                   given: (string, Value, seq<string>) -> bool, v: Value): (r: Result<Verdict>)
    ensures r == Ok(NoRule) <==> rules == []
    ensures r == Ok(Passed) ==> rules[0].name in methods && Apply(methods[rules[0].name], v, rules[0].params, given) == Ok(true)
  {
    if rules == [] then Ok(NoRule)
    else if rules[0].name !in methods then Err(TypeError)   // `undefined.apply`
    else
      var flag :- Apply(methods[rules[0].name], v, rules[0].params, given);
      if flag then Ok(Passed)
      else
        var m :- Filled(Chosen(rules[0], messages), rules[0].params);
        Ok(Reply(m))
  }

  /** Filling in a message never throws. */
  lemma FilledNeverFails(m: Message, params: seq<string>)
    ensures Filled(m, params).Ok?
    ensures m.Template? && params == [] ==> Filled(m, params) == Ok(m)
    ensures m.Template? && params != [] ==> Filled(m, params) == Ok(Plain(Formats.Substituted(m.source, params, 0)))
    ensures m.Plain? && HasPlaceholder(m.text) ==> Filled(m, params) == Ok(Plain(Formats.Substituted(DropDollars(m.text), params, 0)))
    ensures m.Plain? && !HasPlaceholder(m.text) ==> Filled(m, params) == Ok(m)
  {
    match m
    case Template(source) =>
      if params != [] {
        assert Formats.Strings(params)[0] == Formats.Str(params[0]);
        assert Formats.ParamTexts(Formats.Strings(params)) == params;
      }
    case Plain(t) =>
      if HasPlaceholder(t) {
        assert Formats.ParamTexts([Formats.Strs(params)]) == params;
      }
    case _ =>
  }

  /** `check` looks at the first rule only, and fails only where that rule's
      method is missing, is not a function, or throws. */
  lemma CheckFirstRuleOnly(rules: seq<Entry>, methods: map<string, Method>, messages: map<string, Message>,
                           given: (string, Value, seq<string>) -> bool, v: Value)
    requires rules != []
    ensures Checked(rules, methods, messages, given, v) == Checked([rules[0]], methods, messages, given, v)
    ensures Checked(rules, methods, messages, given, v).Err? <==>
              rules[0].name !in methods || Apply(methods[rules[0].name], v, rules[0].params, given).Err?
    ensures Checked(rules, methods, messages, given, v) == Ok(Passed) <==>
              rules[0].name in methods && Apply(methods[rules[0].name], v, rules[0].params, given) == Ok(true)
  {
    var rule := rules[0];
    FilledNeverFails(Chosen(rule, messages), rule.params);
  }

  /** `"${0}!"` filled with `5`: the regular expression drops the `$`, then
      `format` puts the param in. */
  lemma DollarPlaceholderFilled()
    ensures Filled(Plain("${0}!"), ["5"]) == Ok(Plain("5!"))
  {
    var t := "${0}!";
    assert DigitRunEnd(t, 3) == 3;
    assert PlaceholderAt(t, 1);
    assert DigitRunEnd("{0}!", 2) == 2;
    assert DropDollars(t) == "{0}!" by {
      assert !PlaceholderAt(t, 2);
      assert !PlaceholderAt(t, 3);
      assert !PlaceholderAt(t, 4);
    }
    var pat := Formats.Placeholder(0);
    assert pat == "{0}";
    assert "{0}!"[..|pat|] == pat;
    assert "{0}!"[|pat|..] == "!";
    assert Formats.ReplaceAll("!", pat, "5") == "!";
    assert Formats.ReplaceAll("{0}!", pat, "5") == "5!";
  }

  /** A failing rule whose message is `"${0}!"` answers with its first param put in:
      `min:5` on 3 gives `5!`. */
  lemma CheckFillsDollarPlaceholder(given: (string, Value, seq<string>) -> bool)
    ensures Checked([Entry("min", ["5"], Plain("${0}!"))], Builtins(), DefaultMessages(), given, NumV(Finite(3.0)))
            == Ok(Reply(Plain("5!")))
  {
    NumberRules(3.0, 5, "");
    assert NatToString(5) == "5";
    assert Builtins()["min"] == MinRule;
    DollarPlaceholderFilled();
    assert Chosen(Entry("min", ["5"], Plain("${0}!")), DefaultMessages()) == Plain("${0}!");
  }

  /** `check` runs the built-in `max` as written: a strict `max` rule answers
      every number with a message. */
  lemma CheckStrictMaxRejectsNumbers(rules: seq<Entry>, messages: map<string, Message>,
                                     given: (string, Value, seq<string>) -> bool, n: Num)
    requires rules != [] && rules[0].name == "max" && !Inclusive(rules[0].params)
    ensures Checked(rules, Builtins(), messages, given, NumV(n)).Ok?
    ensures Checked(rules, Builtins(), messages, given, NumV(n)).value.Reply?
  {
    assert Builtins()["max"] == MaxRule;
    FilledNeverFails(Chosen(rules[0], messages), rules[0].params);
  }

  lemma MaxMessage()
    ensures Lookup(DefaultMessages(), "max") == Template(MaxBefore + "{0}" + MaxAfter)
  {
  }

  /** The built-in `max` template filled with `5`. */
  lemma MaxTemplateFilled()
    ensures Filled(Template(MaxBefore + "{0}" + MaxAfter), ["5"]) == Ok(Plain(MaxBefore + "5" + MaxAfter))
  {
    var pat := Formats.Placeholder(0);
    assert pat == "{0}";
    Formats.ReplaceAtFirst(MaxBefore, pat, MaxAfter, "5");
    Formats.ReplaceAbsent(MaxAfter, pat, "5");
    FilledNeverFails(Template(MaxBefore + pat + MaxAfter), ["5"]);
  }

  /** `max:5` with no message of its own answers 3 with the built-in message,
      and passes the text `"9"`, whose length 1 is below 5. */
  lemma CheckMaxAsWritten(given: (string, Value, seq<string>) -> bool)
    ensures Checked([Entry("max", ["5"], Unset)], Builtins(), DefaultMessages(), given, NumV(Finite(3.0)))
            == Ok(Reply(Plain(MaxBefore + "5" + MaxAfter)))
    ensures Checked([Entry("max", ["5"], Unset)], Builtins(), DefaultMessages(), given, StrV("9")) == Ok(Passed)
  {
    assert Builtins()["max"] == MaxRule;
    NatToStringNumber(5);
    assert NatToString(5) == "5";
    MaxMessage();
    MaxTemplateFilled();
    assert Chosen(Entry("max", ["5"], Unset), DefaultMessages()) == Lookup(DefaultMessages(), "max");
  }

  /** The corrected `max`, as a function `addMethod` can install under `max`. */
  const CorrectedMax: Method := Custom((v: Value, ps: seq<string>) => Ok(Max(v, ps)))

  /** With the corrected `max` installed, `check` passes a value exactly when
      it is at most (strict: below) the bound, and never throws. */
  lemma CheckCorrectedMax(rules: seq<Entry>, messages: map<string, Message>,
                          given: (string, Value, seq<string>) -> bool, v: Value)
    requires rules != [] && rules[0].name == "max"
    ensures Checked(rules, Builtins()["max" := CorrectedMax], messages, given, v).Ok?
    ensures Checked(rules, Builtins()["max" := CorrectedMax], messages, given, v) == Ok(Passed) <==> Max(v, rules[0].params)
  {
    FilledNeverFails(Chosen(rules[0], messages), rules[0].params);
  }

  lemma MinLengthMessage()
    ensures Lookup(DefaultMessages(), "minlength") == Template(MinLengthBefore + "{0}" + MinLengthAfter)
  {
  }

  /** The built-in `minlength` template filled with `5`. */
  lemma MinLengthTemplateFilled()
    ensures Filled(Template(MinLengthBefore + "{0}" + MinLengthAfter), ["5"]) == Ok(Plain(MinLengthBefore + "5" + MinLengthAfter))
  {
    var pat := Formats.Placeholder(0);
    assert pat == "{0}";
    Formats.ReplaceAtFirst(MinLengthBefore, pat, MinLengthAfter, "5");
    Formats.ReplaceAbsent(MinLengthAfter, pat, "5");
    FilledNeverFails(Template(MinLengthBefore + pat + MinLengthAfter), ["5"]);
  }

  /** `minlength:5` on `"abc"` with no message of its own answers with the
      built-in template filled in. */
  lemma DefaultMessageFilled(given: (string, Value, seq<string>) -> bool)
    ensures Checked([Entry("minlength", ["5"], Unset)], Builtins(), DefaultMessages(), given, StrV("abc"))
            == Ok(Reply(Plain(MinLengthBefore + "5" + MinLengthAfter)))
  {
    LengthRules("abc", 5, "");
    assert NatToString(5) == "5";
    assert Builtins()["minlength"] == MinLengthRule;
    MinLengthMessage();
    MinLengthTemplateFilled();
    assert Chosen(Entry("minlength", ["5"], Unset), DefaultMessages()) == Lookup(DefaultMessages(), "minlength");
  }

  /** An empty rule list gives `undefined`; a template message of a rule without
      params comes back as the curried function itself. */
  lemma CheckWithoutParams(methods: map<string, Method>, messages: map<string, Message>,
                           given: (string, Value, seq<string>) -> bool, v: Value, name: string, source: string)
    requires name in methods && Apply(methods[name], v, [], given) == Ok(false)
    ensures Checked([], methods, messages, given, v) == Ok(NoRule)
    ensures Checked([Entry(name, [], Template(source))], methods, messages, given, v) == Ok(Reply(Template(source)))
  {
  }

  /** A validator: its own list of rules, and the registry all validators share. */
  class Validator {
    var rules: seq<Entry>
    const registry: Registry

    /** `new Validator(rules)`: `rules || []`. */
    constructor(registry: Registry, initial: Option<seq<Entry>>)
      ensures this.registry == registry
      ensures rules == (if initial.Some? then initial.value else [])
    {
      this.registry := registry;
      rules := if initial.Some? then initial.value else [];
    }

    /** `addRule(rule)`. */
    method AddRule(rule: RuleSpec) returns (o: Outcome)
      modifies this
      ensures o.Pass? <==> Known(registry.methods, Head(rule.name))
      ensures o.Pass? ==> rules == old(rules) + [EntryOf(rule)]
      ensures o.Fail? ==> rules == old(rules) && o == Refusal(Head(rule.name))
    {
      var params := Formats.Split(rule.name, ":");
      var name := params[0];
      if name in registry.methods && Present(registry.methods[name]) {
        rules := rules + [Entry(name, TrimAll(params[1..]), rule.message)];
        return Pass;
      }
      return Refusal(name);
    }

    /** `addRules(rules)`: one rule is added as it is, an array element by element. */
    method AddRules(rs: Rules) returns (o: Outcome)
      modifies this
      ensures rules == old(rules) + Adding(registry.methods, Specs(rs)).0
      ensures o == Adding(registry.methods, Specs(rs)).1
    {
      if rs.Lone? {
        AddingStep(registry.methods, [rs.rule], 0);
        assert [rs.rule][1..] == [];
        o := AddRule(rs.rule);
      } else {
        o := AddEach(Specs(rs));
      }
    }

    /** The `for` loop of `addRules`: the elements in order, until the first
        unknown name throws. */
    method AddEach(specs: seq<RuleSpec>) returns (o: Outcome)
      modifies this
      ensures rules == old(rules) + Adding(registry.methods, specs).0
      ensures o == Adding(registry.methods, specs).1
    {
      ghost var ms := registry.methods;
      ghost var total := Adding(ms, specs);
      var i := 0;
      o := Pass;
      while i < |specs|
        invariant 0 <= i <= |specs| && o == Pass && registry.methods == ms
        invariant old(rules) + total.0 == rules + Adding(ms, specs[i..]).0
        invariant total.1 == Adding(ms, specs[i..]).1
      {
        AddingStep(ms, specs, i);
        ghost var before := rules;
        o := AddRule(specs[i]);
        if o.Fail? {
          return;
        }
        Append(before, [EntryOf(specs[i])], Adding(ms, specs[i + 1..]).0);
        i := i + 1;
      }
      assert specs[i..] == [];
    }

    /** `check(value)`. The source's loop over the rules returns during its
        first turn, so only `rules[0]` is ever looked at. */
    method Check(v: Value) returns (r: Result<Verdict>)
      ensures r == Checked(rules, registry.methods, registry.messages, registry.given, v)
    {
      if |rules| == 0 {
        return Ok(NoRule);
      }
      var rule := rules[0];
      if rule.name !in registry.methods {
        return Err(TypeError);
      }
      var flag :- Apply(registry.methods[rule.name], v, rule.params, registry.given);
      if flag {
        return Ok(Passed);
      }
      var message := if Truthy(rule.message) then rule.message else Lookup(registry.messages, rule.name);
      match message {
        case Template(source) =>
          // `format` throws only for a `null` first argument
          var f := Formats.Format(source, Formats.Strings(rule.params));
          message := Returned(f.value);
        case Callback(render) =>
          message := Plain(render(rule.params));
        case Plain(t) =>
          if HasPlaceholder(t) {
            var f := Formats.Format(DropDollars(t), [Formats.Strs(rule.params)]);
            message := Returned(f.value);
          }
        case _ =>
      }
      return Ok(Reply(message));
    }
  }
}
