/** The admin page's form handlers: the profile form's required-field and
    e-mail checks and the normalisation of its payload, the skill form's
    guard, the create-or-update choice every entity form makes, and the
    in-place ordering of the values list. */
module Admin {
  import opened Json
  import opened Wrappers
  import opened Text
  import opened Sorting

  /** A form field as the form library hands it over: `undefined`, or a value. */
  datatype FormValue = Undefined | Value(v: Json)

  /** The form data object. A key that is absent is not among `Object.keys`;
      a key present with Undefined is. */
  type Form = map<string, FormValue>

  predicate FormTruthy(data: Form, key: string) {
    key in data && data[key].Value? && Truthy(data[key].v)
  }

  /** `x === undefined || x === null`. */
  predicate Nullish(x: FormValue) {
    x.Undefined? || x.v.JNull?
  }

  /** `data.key`, reading an absent key as undefined. */
  function Field(data: Form, key: string): FormValue {
    if key in data then data[key] else Undefined
  }

  // The e-mail pattern `^[^\s@]+@[^\s@]+\.[^\s@]+$`.

  /** The characters `\s` matches in a JavaScript regular expression. */
  predicate IsJsSpace(c: char) {
    c == '\t' || c == '\n' || c == '\U{000B}' || c == '\U{000C}' || c == '\r' || c == ' '
    || c == '\U{00A0}' || c == '\U{1680}' || ('\U{2000}' <= c <= '\U{200A}')
    || c == '\U{2028}' || c == '\U{2029}' || c == '\U{202F}' || c == '\U{205F}'
    || c == '\U{3000}' || c == '\U{FEFF}'
  }

  /** The class `[^\s@]`. */
  predicate Plain(c: char) {
    !IsJsSpace(c) && c != '@'
  }

  predicate AllPlain(s: string) {
    forall k :: 0 <= k < |s| ==> Plain(s[k])
  }

  /** The regular expression read literally: one or more plain characters,
      '@', one or more plain characters, '.', one or more plain characters,
      and nothing else. */
  ghost predicate MatchesEmailRegex(s: string) {
    exists i, j :: 0 < i && i + 1 < j && j + 1 < |s| && s[i] == '@' && s[j] == '.'
      && AllPlain(s[..i]) && AllPlain(s[i + 1..j]) && AllPlain(s[j + 1..])
  }

  /** The same language in plain words: no whitespace, exactly one '@', which
      is not the first character, and after it a '.' that is neither the
      first nor the last character of the domain. */
  predicate EmailShape(s: string) {
    (forall k :: 0 <= k < |s| ==> !IsJsSpace(s[k]))
    && (exists i :: 0 < i < |s| && s[i] == '@'
         && (forall k :: 0 <= k < |s| && k != i ==> s[k] != '@')
         && (exists j :: i + 1 < j < |s| - 1 && s[j] == '.'))
  }

  /** The regular expression accepts exactly the strings of that shape. */
  lemma EmailRegexIff(s: string)
    ensures MatchesEmailRegex(s) <==> EmailShape(s)
  {
    if MatchesEmailRegex(s) {
      RegexHasShape(s);
    }
    if EmailShape(s) {
      ShapeMatchesRegex(s);
    }
  }

  lemma RegexHasShape(s: string)
    requires MatchesEmailRegex(s)
    ensures EmailShape(s)
  {
    var i, j :| 0 < i && i + 1 < j && j + 1 < |s| && s[i] == '@' && s[j] == '.'
      && AllPlain(s[..i]) && AllPlain(s[i + 1..j]) && AllPlain(s[j + 1..]);
    forall k | 0 <= k < |s| && k != i && k != j
      ensures Plain(s[k])
    {
      if k < i {
        assert s[k] == s[..i][k];
      } else if k < j {
        assert s[k] == s[i + 1..j][k - i - 1];
      } else {
        assert s[k] == s[j + 1..][k - j - 1];
      }
    }
    assert forall k :: 0 <= k < |s| && k != i ==> s[k] != '@';
    assert i + 1 < j < |s| - 1 && s[j] == '.';
  }

  lemma ShapeMatchesRegex(s: string)
    requires EmailShape(s)
    ensures MatchesEmailRegex(s)
  {
    var i :| 0 < i < |s| && s[i] == '@'
      && (forall k :: 0 <= k < |s| && k != i ==> s[k] != '@')
      && (exists j :: i + 1 < j < |s| - 1 && s[j] == '.');
    var j :| i + 1 < j < |s| - 1 && s[j] == '.';
    assert AllPlain(s[..i]);
    assert AllPlain(s[i + 1..j]);
    assert AllPlain(s[j + 1..]);
  }

  /** The string `regex.test` sees: `String(value)`. Arrays render as their
      joined elements, which this model does not follow; they read as an object. */
  function TestedText(x: FormValue): string {
    match x
    case Undefined => "undefined"
    case Value(JNull) => "null"
    case Value(JBool(b)) => if b then "true" else "false"
    case Value(JNum(n)) => IntToString(n)
    case Value(JStr(s)) => s
    case Value(JComposite) => "[object Object]"
  }

  // `Number(age) || 0`.

  /** `Number(s)` for a string: the empty string is 0, an optionally
      negative run of decimal digits is its value, anything else is NaN (None). */
  function StringNumber(s: string): Option<int> {
    if s == "" then Some(0)
    else if AllDigits(s) then Some(DigitsValue(s))
    else if s[0] == '-' && |s| > 1 && AllDigits(s[1..]) then var v: int := DigitsValue(s[1..]); Some(-v)
    else None
  }

  /** `Number(x)`, with None for NaN. */
  function JsNumber(x: FormValue): Option<int> {
    match x
    case Undefined => None
    case Value(JNull) => Some(0)
    case Value(JBool(b)) => Some(if b then 1 else 0)
    case Value(JNum(n)) => Some(n)
    case Value(JStr(s)) => StringNumber(s)
    case Value(JComposite) => None
  }

  /** `Number(x) || 0`: NaN and 0 both give 0. */
  function AgeValue(x: FormValue): (n: int)
    ensures JsNumber(x).None? ==> n == 0
    ensures JsNumber(x).Some? ==> n == JsNumber(x).value
  {
    match JsNumber(x)
    case None => 0
    case Some(n) => n
  }

  /** An age typed as digits is read back as that number. */
  lemma AgeOfDigits(n: nat)
    ensures AgeValue(Value(JStr(NatToString(n)))) == n
    ensures AgeValue(Value(JNum(n))) == n
  {
    DigitsRoundTrip(n);
  }

  /** A missing, empty or non-numeric age becomes 0. */
  lemma AgeFallback(s: string)
    requires exists k :: 0 <= k < |s| && !IsDigit(s[k]) && s[k] != '-'
    ensures AgeValue(Undefined) == 0 && AgeValue(Value(JNull)) == 0 && AgeValue(Value(JStr(""))) == 0
    ensures AgeValue(Value(JStr(s))) == 0
  {
    var k :| 0 <= k < |s| && !IsDigit(s[k]) && s[k] != '-';
    assert !AllDigits(s);
    if s[0] == '-' && |s| > 1 {
      assert k > 0 && s[1..][k - 1] == s[k];
    }
  }

  // The profile payload.

  /** The `forEach` step on one field: undefined and null become "". */
  function Blank(x: FormValue): FormValue {
    if Nullish(x) then Value(JStr("")) else x
  }

  /** The rest object without `id`, with `age` set to its number. */
  function WithAge(data: Form): Form {
    var rest := data - {"id"};
    rest["age" := Value(JNum(AgeValue(Field(rest, "age"))))]
  }

  /** The payload `onSubmitProfile` builds: `id` dropped, `age` replaced by
      its number, and every undefined or null field replaced by "". */
  function Normalised(data: Form): Form {
    map k | k in WithAge(data) :: Blank(WithAge(data)[k])
  }

  /** The payload never carries an id, always carries a numeric age, holds
      no undefined or null, keeps every other value, and blanks the
      undefined or null ones. */
  lemma NormalisedSpec(data: Form)
    ensures Normalised(data).Keys == data.Keys - {"id"} + {"age"}
    ensures "id" !in Normalised(data)
    ensures Normalised(data)["age"] == Value(JNum(AgeValue(Field(data, "age"))))
    ensures forall k :: k in Normalised(data) ==> !Nullish(Normalised(data)[k])
    ensures forall k :: k in data && k != "id" && k != "age" && !Nullish(data[k]) ==> Normalised(data)[k] == data[k]
    ensures forall k :: k in data && k != "id" && k != "age" && Nullish(data[k]) ==> Normalised(data)[k] == Value(JStr(""))
  {
  }

  /** The body `JSON.stringify` sends: undefined fields are dropped. */
  function ToJsonBody(data: Form): (r: Row)
    ensures r.Keys <= data.Keys
  {
    map k | k in data && data[k].Value? :: data[k].v
  }

  /** A normalised payload loses no field on the way to the server. */
  lemma NormalisedBody(data: Form)
    ensures ToJsonBody(Normalised(data)).Keys == data.Keys - {"id"} + {"age"}
    ensures "age" in ToJsonBody(Normalised(data)) && ToJsonBody(Normalised(data))["age"].JNum?
    ensures forall k :: k in ToJsonBody(Normalised(data)) ==> !ToJsonBody(Normalised(data))[k].JNull?
  {
    NormalisedSpec(data);
  }

  /** The in-place normalisation: the rest object, the age assignment, and
      the `forEach` over its keys. */
  method NormaliseProfile(data: Form) returns (payload: Form)
    ensures payload == Normalised(data)
  {
    var profileData := data - {"id"};
    profileData := profileData["age" := Value(JNum(AgeValue(Field(profileData, "age"))))];
    ghost var base := WithAge(data);
    assert profileData == base;
    var keys := profileData.Keys;
    while keys != {}
      invariant keys <= base.Keys && profileData.Keys == base.Keys
      invariant forall k :: k in keys ==> profileData[k] == base[k]
      invariant forall k :: k in base && k !in keys ==> profileData[k] == Blank(base[k])
      decreases |keys|
    {
      var k :| k in keys;
      if Nullish(profileData[k]) {
        profileData := profileData[k := Value(JStr(""))];
      }
      keys := keys - {k};
    }
    BlankedAll(data, profileData);
    payload := profileData;
  }

  /** A form that blanks every field of WithAge(data) is the normalised one. */
  lemma BlankedAll(data: Form, p: Form)
    requires p.Keys == WithAge(data).Keys
    requires forall k :: k in WithAge(data) ==> p[k] == Blank(WithAge(data)[k])
    ensures p == Normalised(data)
  {
  }

  /** What a submit does: a toast and no request, or the request it sends. */
  datatype Submission = Toast(title: string, description: string) | Send(payload: Row)

  predicate ProfileRequired(data: Form) {
    FormTruthy(data, "name") && FormTruthy(data, "email") && FormTruthy(data, "bio")
  }

  /** `onSubmitProfile`. */
  method OnSubmitProfile(data: Form) returns (r: Submission)
    ensures !ProfileRequired(data) ==> r == Toast("Validation Error", "Name, Email, and Bio are required fields")
    ensures ProfileRequired(data) && !MatchesEmailRegex(TestedText(data["email"])) ==>
      r == Toast("Invalid Email", "Please enter a valid email address")
    ensures ProfileRequired(data) && MatchesEmailRegex(TestedText(data["email"])) ==>
      r == Send(ToJsonBody(Normalised(data)))
  {
    if !ProfileRequired(data) {
      return Toast("Validation Error", "Name, Email, and Bio are required fields");
    }
    EmailRegexIff(TestedText(data["email"]));
    if !EmailShape(TestedText(data["email"])) {
      return Toast("Invalid Email", "Please enter a valid email address");
    }
    var payload := NormaliseProfile(data);
    r := Send(ToJsonBody(payload));
  }

  // The other forms.

  /** A mutation the page fires. */
  datatype Mutation = Create(data: Form) | Update(id: FormValue, data: Form)

  /** `if (editingX) update({ id: editingX.id, data }) else create(data)`:
      the item being edited, when there is one, is a (truthy) object. */
  function Dispatch(editing: Option<Row>, data: Form): Mutation {
    match editing
    case Some(item) => Update(if "id" in item then Value(item["id"]) else Undefined, data)
    case None => Create(data)
  }

  /** A submit updates exactly when an item is being edited, with that
      item's id, and sends the form data unchanged either way. */
  lemma DispatchSpec(editing: Option<Row>, data: Form)
    ensures Dispatch(editing, data).Update? <==> editing.Some?
    ensures Dispatch(editing, data).data == data
    ensures editing.Some? && "id" in editing.value ==> Dispatch(editing, data).id == Value(editing.value["id"])
  {
  }

  /** The skill form's guard: a name and a category, and a percentage that
      is neither undefined nor null. */
  predicate SkillGuard(data: Form) {
    FormTruthy(data, "name") && FormTruthy(data, "category") && !Nullish(Field(data, "percentage"))
  }

  /** `onSubmitSkill`: None when the guard's toast is shown. */
  function OnSubmitSkill(editing: Option<Row>, data: Form): (r: Option<Mutation>)
    ensures r.Some? <==> SkillGuard(data)
    ensures r.Some? ==> r.value.data == data && (r.value.Update? <==> editing.Some?)
  {
    if !SkillGuard(data) then None else Some(Dispatch(editing, data))
  }

  /** A percentage of 0 is falsy but passes: the guard tests for undefined
      and null only. An absent percentage does not. */
  lemma ZeroPercentagePasses(data: Form)
    requires FormTruthy(data, "name") && FormTruthy(data, "category")
    ensures SkillGuard(data["percentage" := Value(JNum(0))])
    ensures !SkillGuard(data - {"percentage"})
    ensures !SkillGuard(data["percentage" := Value(JNull)])
  {
    assert FormTruthy(data["percentage" := Value(JNum(0))], "name");
    assert FormTruthy(data["percentage" := Value(JNum(0))], "category");
  }

  // The values list.

  /** `a.order ?? 0`: a missing or null order counts as 0. */
  function OrderKey(value: Row): SortKey {
    if "order" in value && value["order"].JNum? then Num(value["order"].n) else Num(0)
  }

  /** `values.sort((a, b) => (a.order ?? 0) - (b.order ?? 0))`: a stable sort
      in place, here insertion sort. */
  method SortValuesByOrder(values: array<Row>)
    modifies values
    ensures values[..] == SortBy(old(values[..]), OrderKey)
  {
    ghost var s := values[..];
    var i := 0;
    while i < values.Length
      invariant 0 <= i <= values.Length
      invariant values[..i] == SortBy(s[..i], OrderKey)
      invariant values[i..] == s[i..]
    {
      ghost var prefix := values[..i];
      ghost var rest := values[i..];
      InsertAt(values, i, OrderKey);
      SortByStep(s, i, OrderKey);
      assert values[..i + 1] == SortBy(s[..i + 1], OrderKey);
      assert values[i + 1..] == rest[1..];
      i := i + 1;
    }
    assert s[..values.Length] == s;
  }

  /** One insertion-sort pass: values[i] is swapped leftwards past every
      element whose key is larger. */
  method InsertAt<T>(values: array<T>, i: int, key: T -> SortKey)
    requires 0 <= i < values.Length
    modifies values
    ensures values[..i + 1] == InsertBy(old(values[..i]), old(values[i]), key)
    ensures values[i + 1..] == old(values[i + 1..])
  {
    var x := values[i];
    ghost var sorted, rest := values[..i], values[i + 1..];
    var j := i;
    assert values[..] == Placed(sorted, j, x, rest) by {
      assert values[..] == values[..i] + [x] + values[i + 1..];
    }
    while j > 0 && !KeyLe(key(values[j - 1]), key(x))
      invariant 0 <= j <= i
      invariant values[..] == Placed(sorted, j, x, rest)
      invariant forall k :: j <= k < i ==> !KeyLe(key(sorted[k]), key(x))
    {
      PlacedAt(sorted, j, x, rest);
      PlacedSwap(sorted, j, x, rest);
      values[j - 1], values[j] := values[j], values[j - 1];
      j := j - 1;
    }
    PlacedAt(sorted, j, x, rest);
    InsertByAt(sorted, j, x, key);
  }

  /** The array during the pass: x at position j inside the old prefix. */
  function Placed<T>(sorted: seq<T>, j: int, x: T, rest: seq<T>): seq<T>
    requires 0 <= j <= |sorted|
  {
    sorted[..j] + [x] + sorted[j..] + rest
  }

  /** Reading the layout: its length, the elements around x, and the two
      parts of the array. */
  lemma PlacedAt<T>(sorted: seq<T>, j: int, x: T, rest: seq<T>)
    requires 0 <= j <= |sorted|
    ensures |Placed(sorted, j, x, rest)| == |sorted| + 1 + |rest|
    ensures Placed(sorted, j, x, rest)[j] == x
    ensures j > 0 ==> Placed(sorted, j, x, rest)[j - 1] == sorted[j - 1]
    ensures Placed(sorted, j, x, rest)[..|sorted| + 1] == sorted[..j] + [x] + sorted[j..]
    ensures Placed(sorted, j, x, rest)[|sorted| + 1..] == rest
  {
    var p := sorted[..j] + [x] + sorted[j..];
    assert Placed(sorted, j, x, rest) == p + rest;
  }

  /** Swapping x with the element before it moves x one place left. */
  lemma PlacedSwap<T>(sorted: seq<T>, j: int, x: T, rest: seq<T>)
    requires 0 < j <= |sorted|
    ensures Placed(sorted, j, x, rest)[j - 1 := x][j := sorted[j - 1]] == Placed(sorted, j - 1, x, rest)
  {
    var a := Placed(sorted, j, x, rest)[j - 1 := x][j := sorted[j - 1]];
    var b := Placed(sorted, j - 1, x, rest);
    assert |a| == |b|;
    forall k | 0 <= k < |a| ensures a[k] == b[k] {
      if k < j - 1 {
      } else if k == j - 1 {
      } else if k == j {
      } else if k <= |sorted| {
      } else {
      }
    }
  }
}
