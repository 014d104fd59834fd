/**
 Validating and rendering message templates. The registry's contents are a
 parameter: any table of keys, channels and allowed variables.
 */
module Templates {
  import opened Placeholders

  datatype Channel = Email | Whatsapp | InApp

  datatype Entry = Entry(channel: Channel, approvalRequired: bool)

  datatype Registry = Registry(entries: map<string, Entry>, variables: map<string, set<string>>)

  /** A payload value: text, or anything else with the string form it prints as. */
  datatype Value = Plain(text: string) | Other(repr: string)

  datatype Field = Field(name: string, value: Value)

  datatype Body = Body(
    channel: Channel, payload: seq<Field>, allowed: set<string>, required: set<string>, approved: bool)

  datatype Complaint = Unknown(names: set<string>) | Unsafe | Missing(names: set<string>)

  datatype Verdict =
    | Accepted
    | ChannelMismatch
    | RequiredNotAllowed
    | Invalid(complaints: seq<Complaint>)
    | ApprovalRequired

  function Str(value: Value): string {
    match value
    case Plain(text) => text
    case Other(repr) => repr
  }

  function Variables(registry: Registry, key: string): set<string> {
    if key in registry.variables then registry.variables[key] else {}
  }

  function Declared(registry: Registry, key: string, body: Body): set<string> {
    if body.allowed != {} then body.allowed else Variables(registry, key)
  }

  function Lower(text: string): string {
    seq(|text|, i requires 0 <= i < |text| => if 'A' <= text[i] <= 'Z' then text[i] - 'A' + 'a' else text[i])
  }

  predicate StartsAt(text: string, part: string, i: nat) {
    i <= |text| && part <= text[i..]
  }

  predicate Contains(text: string, part: string) {
    exists i | 0 <= i <= |text| :: StartsAt(text, part, i)
  }

  predicate IsUnsafe(text: string) {
    Contains(Lower(text), "<script") || Contains(Lower(text), "javascript:")
  }

  /** At `i` the text spells `small`, each letter in either case. */
  predicate SpelledAt(text: string, i: nat, small: string, big: string)
    requires |small| == |big|
  {
    i + |small| <= |text| && forall k | 0 <= k < |small| :: text[i+k] == small[k] || text[i+k] == big[k]
  }

  /** In any case, somewhere: an opening script tag or a script URL. */
  ghost predicate SpellsScript(text: string) {
    exists i: nat :: SpelledAt(text, i, "<script", "<SCRIPT") || SpelledAt(text, i, "javascript:", "JAVASCRIPT:")
  }

  lemma LowerStarts(text: string, i: nat, small: string, big: string)
    requires small in {"<script", "javascript:"} && big == (if small == "<script" then "<SCRIPT" else "JAVASCRIPT:")
    ensures StartsAt(Lower(text), small, i) <==> SpelledAt(text, i, small, big)
  {
    var lower := Lower(text);
    if SpelledAt(text, i, small, big) {
      assert lower[i..i+|small|] == small;
      assert lower[i..][..|small|] == lower[i..i+|small|];
    }
    if StartsAt(lower, small, i) {
      forall k | 0 <= k < |small| ensures text[i+k] == small[k] || text[i+k] == big[k] {
        assert lower[i..][k] == small[k];
      }
    }
  }

  /** The check refuses exactly the texts that spell one of the two in some mix of cases. */
  lemma UnsafeExactly(text: string)
    ensures IsUnsafe(text) <==> SpellsScript(text)
  {
    forall i: nat
      ensures StartsAt(Lower(text), "<script", i) <==> SpelledAt(text, i, "<script", "<SCRIPT")
      ensures StartsAt(Lower(text), "javascript:", i) <==> SpelledAt(text, i, "javascript:", "JAVASCRIPT:")
    {
      LowerStarts(text, i, "<script", "<SCRIPT");
      LowerStarts(text, i, "javascript:", "JAVASCRIPT:");
    }
    if SpellsScript(text) {
      var i: nat :| SpelledAt(text, i, "<script", "<SCRIPT") || SpelledAt(text, i, "javascript:", "JAVASCRIPT:");
      assert StartsAt(Lower(text), "<script", i) || StartsAt(Lower(text), "javascript:", i);
    }
    if IsUnsafe(text) {
      var i: nat :| i <= |text| && (StartsAt(Lower(text), "<script", i) || StartsAt(Lower(text), "javascript:", i));
      assert SpelledAt(text, i, "<script", "<SCRIPT") || SpelledAt(text, i, "javascript:", "JAVASCRIPT:");
    }
  }

  function Union(sets: seq<set<string>>): set<string> {
    if sets == [] then {} else Union(sets[..|sets|-1]) + sets[|sets|-1]
  }

  lemma UnionSnoc(sets: seq<set<string>>, n: nat)
    requires n < |sets|
    ensures Union(sets[..n+1]) == Union(sets[..n]) + sets[n]
  {
    assert sets[..n+1][..n] == sets[..n];
  }

  lemma {:induction false} InUnion(sets: seq<set<string>>, name: string)
    ensures name in Union(sets) <==> exists i :: 0 <= i < |sets| && name in sets[i]
  {
    if sets != [] {
      InUnion(sets[..|sets|-1], name);
    }
  }

  lemma UnionWithin(sets: seq<set<string>>, allowed: set<string>)
    requires forall i | 0 <= i < |sets| :: sets[i] <= allowed
    ensures Union(sets) <= allowed
  {
    forall name | name in Union(sets) ensures name in allowed {
      InUnion(sets, name);
    }
  }

  /** The placeholders of each value. */
  function FoundEach(fields: seq<Field>): seq<set<string>> {
    seq(|fields|, i requires 0 <= i < |fields| => Found(Str(fields[i].value)))
  }

  /** The placeholders in all the values. */
  function FoundIn(fields: seq<Field>): set<string> {
    Union(FoundEach(fields))
  }

  lemma NothingOutside(a: set<string>, b: set<string>)
    ensures a - b == {} <==> a <= b
  {
    if a - b == {} {
      forall x | x in a ensures x in b {
        assert x !in a - b;
      }
    }
  }

  /** What each value is checked for on its own. */
  function ValueComplaints(allowed: set<string>, text: string): seq<Complaint> {
    (if Found(text) <= allowed then [] else [Unknown(Found(text) - allowed)])
    + (if IsUnsafe(text) then [Unsafe] else [])
  }

  method ValidateTemplatePayload(registry: Registry, key: string, value: Value) returns (errors: seq<Complaint>)
    ensures errors == ValueComplaints(Variables(registry, key), Str(value))
    ensures var allowed := if key in registry.variables then registry.variables[key] else {};
            && (forall names :: Unknown(names) in errors <==> names == Found(Str(value)) - allowed && names != {})
            && (Unsafe in errors <==> SpellsScript(Str(value))) && forall names :: Missing(names) !in errors
  {
    var allowed := Variables(registry, key);
    var found := Found(Str(value));
    errors := [];
    var unknown := found - allowed;
    NothingOutside(found, allowed);
    UnsafeExactly(Str(value));
    if unknown != {} {
      errors := errors + [Unknown(unknown)];
    }
    if IsUnsafe(Str(value)) {
      errors := errors + [Unsafe];
    }
  }

  function Flatten(each: seq<seq<Complaint>>): seq<Complaint> {
    if each == [] then [] else Flatten(each[..|each|-1]) + each[|each|-1]
  }

  lemma FlattenSnoc(each: seq<seq<Complaint>>, n: nat)
    requires n < |each|
    ensures Flatten(each[..n+1]) == Flatten(each[..n]) + each[n]
  {
    assert each[..n+1][..n] == each[..n];
  }

  lemma {:induction false} FlattenEmpty(each: seq<seq<Complaint>>)
    ensures Flatten(each) == [] <==> forall i | 0 <= i < |each| :: each[i] == []
  {
    if each != [] {
      FlattenEmpty(each[..|each|-1]);
      assert |Flatten(each)| == |Flatten(each[..|each|-1])| + |each[|each|-1]|;
    }
  }

  /** The complaints about each value on its own. */
  function ComplaintsEach(allowed: set<string>, fields: seq<Field>): seq<seq<Complaint>> {
    seq(|fields|, i requires 0 <= i < |fields| => ValueComplaints(allowed, Str(fields[i].value)))
  }

  /** The complaints about all the values together. */
  function SetComplaints(allowed: set<string>, required: set<string>, found: set<string>): seq<Complaint> {
    (if found <= allowed then [] else [Unknown(found - allowed)])
    + (if required <= found then [] else [Missing(required - found)])
  }

  /** Every complaint, in the order the error message lists them. */
  function Complaints(registry: Registry, key: string, body: Body): seq<Complaint> {
    Flatten(ComplaintsEach(Variables(registry, key), body.payload))
    + SetComplaints(Variables(registry, key), body.required, FoundIn(body.payload))
  }

  predicate ChannelOk(registry: Registry, key: string, body: Body) {
    key in registry.entries ==> registry.entries[key].channel == body.channel
  }

  predicate ApprovalMissing(registry: Registry, key: string, body: Body) {
    body.channel == Whatsapp && key in registry.entries && registry.entries[key].approvalRequired && !body.approved
  }

  /** Collect the complaints: a loop over the values, then the placeholders of all of them together. */
  method CollectComplaints(registry: Registry, key: string, body: Body) returns (errors: seq<Complaint>)
    ensures errors == Complaints(registry, key, body)
  {
    var allowed, payload := Variables(registry, key), body.payload;
    errors := [];
    var found: set<string> := {};
    for i := 0 to |payload|
      invariant found == Union(FoundEach(payload)[..i])
      invariant errors == Flatten(ComplaintsEach(allowed, payload)[..i])
    {
      UnionSnoc(FoundEach(payload), i);
      FlattenSnoc(ComplaintsEach(allowed, payload), i);
      var more := ValidateTemplatePayload(registry, key, payload[i].value);
      errors := errors + more;
      found := found + Found(Str(payload[i].value));
    }
    assert FoundEach(payload)[..|payload|] == FoundEach(payload);
    assert ComplaintsEach(allowed, payload)[..|payload|] == ComplaintsEach(allowed, payload);
    var unknown := found - allowed;
    NothingOutside(found, allowed);
    if unknown != {} {
      errors := errors + [Unknown(unknown)];
    }
    var missing := body.required - found;
    NothingOutside(body.required, found);
    if missing != {} {
      errors := errors + [Missing(missing)];
    }
  }

  method Validate(registry: Registry, key: string, body: Body) returns (verdict: Verdict)
    ensures verdict ==
            if !ChannelOk(registry, key, body) then ChannelMismatch
            else if !(body.required <= Declared(registry, key, body)) then RequiredNotAllowed
            else if Complaints(registry, key, body) != [] then Invalid(Complaints(registry, key, body))
            else if ApprovalMissing(registry, key, body) then ApprovalRequired
            else Accepted
    ensures verdict == Accepted <==> Passes(registry, key, body)
    ensures var entry := if key in registry.entries then registry.entries[key] else Entry(body.channel, false);
            var allowed := if key in registry.variables then registry.variables[key] else {};
            var declared := if body.allowed == {} then allowed else body.allowed;
            && (verdict == ChannelMismatch <==> entry.channel != body.channel)
            && (verdict == RequiredNotAllowed <==>
                  entry.channel == body.channel && exists v :: v in body.required - declared)
            && (verdict == ApprovalRequired ==> body.channel == Whatsapp && entry.approvalRequired && !body.approved)
            && (verdict == Accepted ==>
                  && !(body.channel == Whatsapp && entry.approvalRequired && !body.approved)
                  && (forall f | f in body.payload :: !SpellsScript(Str(f.value)) && Found(Str(f.value)) <= allowed)
                  && forall v | v in body.required :: exists f :: f in body.payload && v in Found(Str(f.value)))
  {
    if Passes(registry, key, body) {
      AcceptedMeans(registry, key, body);
    }
    NoComplaints(registry, key, body);
    if !ChannelOk(registry, key, body) {
      return ChannelMismatch;
    }
    if !(body.required <= Declared(registry, key, body)) {
      return RequiredNotAllowed;
    }
    var errors := CollectComplaints(registry, key, body);
    if errors != [] {
      return Invalid(errors);
    }
    if ApprovalMissing(registry, key, body) {
      return ApprovalRequired;
    }
    verdict := Accepted;
  }

  /** No script, and no placeholder outside the key's variables, in any value. */
  predicate Clean(allowed: set<string>, fields: seq<Field>) {
    forall i | 0 <= i < |fields| :: CleanText(allowed, Str(fields[i].value))
  }

  /** The whole acceptance condition. */
  predicate Passes(registry: Registry, key: string, body: Body) {
    && ChannelOk(registry, key, body)
    && body.required <= Declared(registry, key, body)
    && Clean(Variables(registry, key), body.payload)
    && body.required <= FoundIn(body.payload)
    && !ApprovalMissing(registry, key, body)
  }

  predicate CleanText(allowed: set<string>, text: string) {
    Found(text) <= allowed && !IsUnsafe(text)
  }

  lemma NoValueComplaints(allowed: set<string>, text: string)
    ensures ValueComplaints(allowed, text) == [] <==> CleanText(allowed, text)
  {
  }

  lemma NoneEach(allowed: set<string>, fields: seq<Field>)
    ensures (forall i | 0 <= i < |fields| :: ComplaintsEach(allowed, fields)[i] == []) <==> Clean(allowed, fields)
  {
    forall i | 0 <= i < |fields|
      ensures ComplaintsEach(allowed, fields)[i] == [] <==> CleanText(allowed, Str(fields[i].value))
    {
      NoValueComplaints(allowed, Str(fields[i].value));
    }
  }

  /** There is nothing to complain about exactly when every value is clean and every required variable is found. */
  lemma NoComplaints(registry: Registry, key: string, body: Body)
    ensures Complaints(registry, key, body) == [] <==>
            Clean(Variables(registry, key), body.payload) && body.required <= FoundIn(body.payload)
  {
    FlattenEmpty(ComplaintsEach(Variables(registry, key), body.payload));
    NoneEach(Variables(registry, key), body.payload);
    if Clean(Variables(registry, key), body.payload) {
      UnionWithin(FoundEach(body.payload), Variables(registry, key));
    }
  }

  lemma AcceptedMeans(registry: Registry, key: string, body: Body)
    requires Passes(registry, key, body)
    ensures forall f | f in body.payload ::
              !SpellsScript(Str(f.value)) && Found(Str(f.value)) <= Variables(registry, key)
    ensures forall v | v in body.required :: exists f :: f in body.payload && v in Found(Str(f.value))
  {
    forall f | f in body.payload
      ensures !SpellsScript(Str(f.value)) && Found(Str(f.value)) <= Variables(registry, key)
    {
      var i :| 0 <= i < |body.payload| && body.payload[i] == f;
      UnsafeExactly(Str(f.value));
    }
    forall v | v in body.required ensures exists f :: f in body.payload && v in Found(Str(f.value)) {
      InUnion(FoundEach(body.payload), v);
      var i :| 0 <= i < |body.payload| && v in FoundEach(body.payload)[i];
      assert body.payload[i] in body.payload;
    }
  }

  // ---- What acceptance buys ----

  function RenderValue(value: Value, sample: map<string, string>): Value {
    match value
    case Plain(text) => Plain(Render(text, sample))
    case Other(_) => value
  }

  function RenderPayload(fields: seq<Field>, sample: map<string, string>): seq<Field> {
    seq(|fields|, i requires 0 <= i < |fields| => Field(fields[i].name, RenderValue(fields[i].value, sample)))
  }

  /** An accepted template shows nothing but the key's variables: samples that agree on them render alike. */
  lemma AcceptedShowsOnlyItsVariables(registry: Registry, key: string, body: Body,
                                      s: map<string, string>, t: map<string, string>)
    requires Passes(registry, key, body) && AgreeOn(Variables(registry, key), s, t)
    ensures RenderPayload(body.payload, s) == RenderPayload(body.payload, t)
  {
    forall i | 0 <= i < |body.payload|
      ensures RenderValue(body.payload[i].value, s) == RenderValue(body.payload[i].value, t)
    {
      DependsOnlyOnAllowed(Str(body.payload[i].value), Variables(registry, key));
    }
  }

  /** Variable `name` changes what the payload renders to. */
  ghost predicate Shows(fields: seq<Field>, name: string) {
    RenderPayload(fields, map[name := "x"]) != RenderPayload(fields, map[])
  }

  /**
   A required variable is shown exactly when some text value, not just the print of
   another value, holds its placeholder.
   */
  lemma ShownIffInText(fields: seq<Field>, name: string)
    ensures Shows(fields, name) <==>
            exists i :: 0 <= i < |fields| && fields[i].value.Plain? && name in Found(fields[i].value.text)
  {
    var s, t: map<string, string> := map[name := "x"], map[];
    if exists i :: 0 <= i < |fields| && fields[i].value.Plain? && name in Found(fields[i].value.text) {
      var i :| 0 <= i < |fields| && fields[i].value.Plain? && name in Found(fields[i].value.text);
      LongerWith(Scan(fields[i].value.text), name);
      assert RenderPayload(fields, s)[i] != RenderPayload(fields, t)[i];
    } else {
      forall i | 0 <= i < |fields| ensures RenderPayload(fields, s)[i] == RenderPayload(fields, t)[i] {
        if fields[i].value.Plain? {
          SameValuesSameText(Scan(fields[i].value.text), s, t);
        }
      }
    }
  }

  /** With text values only, acceptance guarantees that every required variable is shown. */
  lemma RequiredAreShown(registry: Registry, key: string, body: Body, name: string)
    requires Passes(registry, key, body) && name in body.required
    requires forall i | 0 <= i < |body.payload| :: body.payload[i].value.Plain?
    ensures Shows(body.payload, name)
  {
    InUnion(FoundEach(body.payload), name);
    var i :| 0 <= i < |body.payload| && name in FoundEach(body.payload)[i];
    ShownIffInText(body.payload, name);
  }

  /** How a list holding one placeholder as its only string prints. */
  function ListPrint(name: string): string {
    "['" + Braced(name) + "']"
  }

  /** A payload whose only value is such a list. */
  function Hidden(name: string): Body {
    Body(Email, [Field("html", Other(ListPrint(name)))], {}, {name}, false)
  }

  lemma HiddenIsClean(name: string)
    requires IsName(name)
    ensures Clean({name}, Hidden(name).payload) && FoundIn(Hidden(name).payload) == {name}
  {
    var fields := Hidden(name).payload;
    BracedIsHole(name);
    FoundAround("['", Braced(name), name, "']");
    ListPrintIsSafe(name);
    assert Str(fields[0].value) == ListPrint(name);
    assert FoundEach(fields) == [{name}] && [{name}][..0] == [];
    assert Union([{name}]) == {name};
  }

  /** Otherwise it may be shown nowhere: its placeholder counts even inside a list, which is never rendered. */
  lemma RequiredMayBeHidden(name: string) returns (registry: Registry, body: Body)
    requires IsName(name)
    ensures Passes(registry, "E1", body) && name in body.required && !Shows(body.payload, name)
    ensures body.payload == [Field("html", Other("['{{" + name + "}}']"))]
  {
    registry, body := Registry(map[], map["E1" := {name}]), Hidden(name);
    HiddenIsClean(name);
    ShownIffInText(body.payload, name);
    assert ListPrint(name) == "['{{" + name + "}}']";
  }

  lemma CharOfPart(text: string, i: nat, part: string, k: nat)
    requires i <= |text| && k < |part|
    ensures StartsAt(text, part, i) ==> i + k < |text| && text[i+k] == part[k]
  {
  }

  /** A text without angle bracket and colon spells no script. */
  lemma PlainIsSafe(text: string)
    requires forall i | 0 <= i < |text| :: text[i] != '<' && text[i] != ':'
    ensures !IsUnsafe(text)
  {
    var lower := Lower(text);
    forall i | 0 <= i <= |lower| ensures !StartsAt(lower, "<script", i) && !StartsAt(lower, "javascript:", i) {
      CharOfPart(lower, i, "<script", 0);
      CharOfPart(lower, i, "javascript:", 10);
    }
  }

  lemma ListPrintIsSafe(name: string)
    requires IsName(name)
    ensures !IsUnsafe(ListPrint(name))
  {
    var text := ListPrint(name);
    forall i | 0 <= i < |text| ensures text[i] != '<' && text[i] != ':' {
      if 4 <= i < |text| - 4 {
        assert text[i] == name[i - 4];
      }
    }
    PlainIsSafe(text);
  }
}
