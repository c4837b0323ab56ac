/** The repeated-failure detector: counts failed calls by tool, arguments and error. */
module FailureDetector {
  import opened Wrappers
  import opened JsonPayload
  import opened Permissions
  import opened ToolRegistry

  /** A recorded call: what it gave and the arguments it was made with. */
  datatype Outcome = Outcome(result: ToolResult, arguments: map<Text, Json>)

  function TextOf(s: string): Text {
    seq(|s|, i requires 0 <= i < |s| => s[i] as nat)
  }

  function ErrorJson(error: Option<string>): Json {
    if error.None? then JNull else JString(TextOf(error.value))
  }

  /** The text that is hashed. SHA-256 is taken to be injective, so the text itself is the key. */
  function Key(result: ToolResult, arguments: map<Text, Json>): string {
    Dumps(FailureObject(result, arguments))
  }

  function FailureObject(result: ToolResult, arguments: map<Text, Json>): Json {
    JObject(map[
      TextOf("tool") := JString(TextOf(result.toolName)),
      TextOf("args") := JObject(arguments),
      TextOf("error") := ErrorJson(result.error)])
  }

  lemma TextOfTells(s: string, t: string)
    ensures TextOf(s) == TextOf(t) <==> s == t
    ensures WellFormedText(TextOf(s))
  {
    if TextOf(s) == TextOf(t) {
      assert |s| == |TextOf(s)| == |t|;
      forall i | 0 <= i < |s| ensures s[i] == t[i] {
        assert TextOf(s)[i] == TextOf(t)[i];
      }
    }
  }

  lemma ErrorTells(e: Option<string>, f: Option<string>)
    ensures ErrorJson(e) == ErrorJson(f) <==> e == f
    ensures WellFormed(ErrorJson(e))
  {
    if e.Some? {
      TextOfTells(e.value, if f.Some? then f.value else "");
    }
  }

  /** Text that needs no escapes. */
  predicate IsPlain(s: string) {
    forall i :: 0 <= i < |s| ==> 0x20 <= s[i] as int <= 0x7E && s[i] != '\"' && s[i] != '\\'
  }

  lemma {:induction false} PlainTextPrintsAsItself(s: string)
    requires IsPlain(s)
    ensures StringTail(Units(TextOf(s))) == s + "\""
  {
    if s != [] {
      assert TextOf(s)[1..] == TextOf(s[1..]);
      assert Units(TextOf(s)) == [s[0] as nat] + Units(TextOf(s[1..]));
      PlainTextPrintsAsItself(s[1..]);
      assert s + "\"" == [s[0]] + (s[1..] + "\"");
    } else {
      assert TextOf(s) == [];
    }
  }

  lemma FieldOrder()
    ensures var args, error, tool := TextOf("args"), TextOf("error"), TextOf("tool");
            SortedKeys({args, error, tool}) == [args, error, tool]
  {
    var args, error, tool := TextOf("args"), TextOf("error"), TextOf("tool");
    assert args[0] < error[0] < tool[0];
    assert Less(args, error) && Less(error, tool) && Less(args, tool);
    SortedKeysUnique({args, error, tool}, [args, error, tool]);
  }

  lemma FieldsOf(result: ToolResult, arguments: map<Text, Json>)
    ensures var args, error, tool := TextOf("args"), TextOf("error"), TextOf("tool");
            var members := FailureObject(result, arguments).members;
            && members.Keys == {args, error, tool}
            && members[args] == JObject(arguments)
            && members[error] == ErrorJson(result.error)
            && members[tool] == JString(TextOf(result.toolName))
  {
    var args, error, tool := TextOf("args"), TextOf("error"), TextOf("tool");
    assert args[0] != error[0] && error[0] != tool[0] && args[0] != tool[0];
  }

  function Field(name: string, text: string): string {
    "\"" + (name + "\"" + (": " + text))
  }

  function Braced(x: string, y: string, z: string): string {
    "{" + (x + (", " + (y + (", " + (z + "}")))))
  }

  lemma FieldPrints(name: string, v: Ordered)
    requires IsPlain(name)
    ensures Print(OMember(Units(TextOf(name)), v)) == Field(name, Print(v))
  {
    PlainTextPrintsAsItself(name);
  }

  lemma OrderedPayload(result: ToolResult, arguments: map<Text, Json>)
    returns (o: Ordered, a: Ordered, e: Ordered, t: Ordered)
    ensures o == Order(FailureObject(result, arguments)) && a == Order(JObject(arguments))
    ensures e == Order(ErrorJson(result.error)) && t == Order(JString(TextOf(result.toolName)))
    ensures Key(result, arguments) == Print(o) && Dumps(JObject(arguments)) == Print(a)
    ensures Dumps(ErrorJson(result.error)) == Print(e) && Dumps(JString(TextOf(result.toolName))) == Print(t)
    ensures o.OObject? && |o.members| == 3
    ensures o.members[0] == OMember(Units(TextOf("args")), a)
    ensures o.members[1] == OMember(Units(TextOf("error")), e)
    ensures o.members[2] == OMember(Units(TextOf("tool")), t)
  {
    var j := FailureObject(result, arguments);
    o, a := Order(j), Order(JObject(arguments));
    e, t := Order(ErrorJson(result.error)), Order(JString(TextOf(result.toolName)));
    FieldsOf(result, arguments);
    FieldOrder();
    MemberAt(j.members, 0, TextOf("args"), JObject(arguments));
    MemberAt(j.members, 1, TextOf("error"), ErrorJson(result.error));
    MemberAt(j.members, 2, TextOf("tool"), JString(TextOf(result.toolName)));
  }

  /** The payload: arguments, error and tool, in this order, with the default separators. */
  lemma PayloadShape(result: ToolResult, arguments: map<Text, Json>)
    ensures Key(result, arguments) ==
            Braced(Field("args", Dumps(JObject(arguments))),
                   Field("error", Dumps(ErrorJson(result.error))),
                   Field("tool", Dumps(JString(TextOf(result.toolName)))))
  {
    var o, a, e, t := OrderedPayload(result, arguments);
    PayloadFields(o, a, e, t);
  }

  lemma PayloadFields(o: Ordered, a: Ordered, e: Ordered, t: Ordered)
    requires o.OObject? && |o.members| == 3
    requires o.members[0] == OMember(Units(TextOf("args")), a)
    requires o.members[1] == OMember(Units(TextOf("error")), e)
    requires o.members[2] == OMember(Units(TextOf("tool")), t)
    ensures Print(o) == Braced(Field("args", Print(a)), Field("error", Print(e)), Field("tool", Print(t)))
  {
    ThreeFields(o, "args", a, "error", e, "tool", t);
  }

  lemma ThreeFields(o: Ordered, n1: string, a: Ordered, n2: string, e: Ordered, n3: string, t: Ordered)
    requires o.OObject? && |o.members| == 3 && IsPlain(n1) && IsPlain(n2) && IsPlain(n3)
    requires o.members[0] == OMember(Units(TextOf(n1)), a)
    requires o.members[1] == OMember(Units(TextOf(n2)), e)
    requires o.members[2] == OMember(Units(TextOf(n3)), t)
    ensures Print(o) == Braced(Field(n1, Print(a)), Field(n2, Print(e)), Field(n3, Print(t)))
  {
    FieldPrints(n1, a);
    FieldPrints(n2, e);
    FieldPrints(n3, t);
    ThreeMembers(o, Field(n1, Print(a)), Field(n2, Print(e)), Field(n3, Print(t)));
  }

  lemma ThreeMembers(o: Ordered, x: string, y: string, z: string)
    requires o.OObject? && |o.members| == 3
    requires Print(o.members[0]) == x && Print(o.members[1]) == y && Print(o.members[2]) == z
    ensures Print(o) == Braced(x, y, z)
  {
    var ms := o.members;
    OneMore(ms[1..], '}');
    OneMore(ms[2..], '}');
    assert ms[1..][1..] == ms[2..] && ms[2..][1..] == [];
    assert Print(o) == "{" + (x + MoreItems(ms[1..], '}'));
  }

  lemma OneMore(items: seq<Ordered>, close: char)
    requires items != []
    ensures MoreItems(items, close) == ", " + (Print(items[0]) + MoreItems(items[1..], close))
  {}

  // ---------------------------------------------------------------- which failures share a key

  predicate SameFailure(o: Outcome, p: Outcome) {
    o.result.toolName == p.result.toolName && o.result.error == p.result.error && o.arguments == p.arguments
  }

  /** The same tool and error, and arguments that agree once members are sorted and strings are UTF-16 units. */
  predicate SameOnPaper(o: Outcome, p: Outcome) {
    && o.result.toolName == p.result.toolName
    && o.result.error == p.result.error
    && Order(JObject(o.arguments)) == Order(JObject(p.arguments))
  }

  lemma OrderTellsText(s: string, t: string)
    ensures Order(JString(TextOf(s))) == Order(JString(TextOf(t))) <==> s == t
  {
    TextOfTells(s, t);
    TextOfTells(t, s);
    if Order(JString(TextOf(s))) == Order(JString(TextOf(t))) {
      OrderTells(JString(TextOf(s)), JString(TextOf(t)));
    }
  }

  lemma OrderTellsError(e: Option<string>, f: Option<string>)
    ensures Order(ErrorJson(e)) == Order(ErrorJson(f)) <==> e == f
  {
    ErrorTells(e, f);
    ErrorTells(f, e);
    if Order(ErrorJson(e)) == Order(ErrorJson(f)) {
      OrderTells(ErrorJson(e), ErrorJson(f));
    }
  }

  lemma ThreeMembersTell(o: Ordered, o': Ordered)
    requires o.OObject? && o'.OObject? && |o.members| == |o'.members| == 3
    ensures o == o' <==> o.members[0] == o'.members[0] && o.members[1] == o'.members[1] && o.members[2] == o'.members[2]
  {
    if o.members[0] == o'.members[0] && o.members[1] == o'.members[1] && o.members[2] == o'.members[2] {
      assert o.members == o'.members;
    }
  }

  /** Two failures share a key exactly when they are the same on paper. */
  lemma KeyTells(o: Outcome, p: Outcome)
    ensures Key(o.result, o.arguments) == Key(p.result, p.arguments) <==> SameOnPaper(o, p)
  {
    var x, a, e, t := OrderedPayload(o.result, o.arguments);
    var y, b, f, u := OrderedPayload(p.result, p.arguments);
    DumpsTells(FailureObject(o.result, o.arguments), FailureObject(p.result, p.arguments));
    ThreeMembersTell(x, y);
    OrderTellsError(o.result.error, p.result.error);
    OrderTellsText(o.result.toolName, p.result.toolName);
  }

  /** Without surrogates among the arguments, the same on paper is the same. */
  lemma PaperTellsFailures(o: Outcome, p: Outcome)
    requires WellFormed(JObject(o.arguments)) && WellFormed(JObject(p.arguments))
    ensures SameOnPaper(o, p) <==> SameFailure(o, p)
  {
    if SameOnPaper(o, p) {
      OrderTells(JObject(o.arguments), JObject(p.arguments));
    }
  }

  lemma OrderOfOneMember(key: Text, value: Json)
    ensures Order(JObject(map[key := value])) == OObject([OMember(Units(key), Order(value))])
  {
    var members := map[key := value];
    assert members.Keys == {key};
    SortedKeysUnique({key}, [key]);
    MemberAt(members, 0, key, value);
    assert Order(JObject(members)).members == [OMember(Units(key), Order(value))];
  }

  /** With surrogates it is not: two calls that differ in their argument fail under one key, so that the second
      already counts as a repetition. */
  lemma DifferentFailuresShareAKey(result: ToolResult, name: Text)
    requires !result.Ok()
    ensures var o := Outcome(result, map[name := JString([0xD83D, 0xDE00])]);
            var p := Outcome(result, map[name := JString([0x1F600])]);
            && !SameFailure(o, p) && SameOnPaper(o, p)
            && Trips(2, [RecordOf(o)], RecordOf(p))
  {
    var j, k := JString([0xD83D, 0xDE00]), JString([0x1F600]);
    var o, p := Outcome(result, map[name := j]), Outcome(result, map[name := k]);
    SurrogatePairsCollide();
    DumpsTells(j, k);
    assert o.arguments[name] != p.arguments[name];
    OrderOfOneMember(name, j);
    OrderOfOneMember(name, k);
    KeyTells(o, p);
    CountAfter([], RecordOf(o), RecordOf(p).key);
    assert [] + [RecordOf(o)] == [RecordOf(o)];
  }

  // ---------------------------------------------------------------- runs

  /** What a recorded call is to the detector. */
  datatype Record = Passed | Failed(key: string)

  function RecordOf(o: Outcome): Record {
    if o.result.Ok() then Passed else Failed(Key(o.result, o.arguments))
  }

  /** The keys of the failures of a run, in order. */
  function FailureKeys(run: seq<Record>): seq<string> {
    if run == [] then []
    else
      FailureKeys(run[..|run| - 1]) + match run[|run| - 1] case Passed => [] case Failed(key) => [key]
  }

  /** How often a key has failed. */
  function Count(run: seq<Record>, key: string): nat {
    multiset(FailureKeys(run))[key]
  }

  /** What the detector has counted after a run. */
  ghost predicate Counts(seen: map<string, nat>, run: seq<Record>) {
    forall key :: (if key in seen then seen[key] else 0) == Count(run, key)
  }

  lemma CountAfter(run: seq<Record>, last: Record, key: string)
    ensures Count(run + [last], key) == Count(run, key) + if last == Failed(key) then 1 else 0
  {
    assert (run + [last])[..|run|] == run;
  }

  /** Whether recording `last` after `run` raises. */
  predicate Trips(maxRepeats: int, run: seq<Record>, last: Record) {
    last.Failed? && Count(run, last.key) + 1 >= maxRepeats
  }

  /** No prefix of the run tripped the detector. */
  ghost predicate NeverTrips(maxRepeats: int, run: seq<Record>) {
    forall i :: 0 <= i < |run| ==> !Trips(maxRepeats, run[..i], run[i])
  }

  class RepeatedFailureDetector {
    const maxRepeats: int
    var seen: map<string, nat>

    constructor (maxRepeats: int := 2)
      ensures this.maxRepeats == maxRepeats && seen == map[] && Counts(seen, [])
    {
      this.maxRepeats := maxRepeats;
      seen := map[];
    }

    /** `run` is what was recorded before. The count is kept even by a call that raises. */
    method Record(result: ToolResult, arguments: map<Text, Json>, ghost run: seq<Record>)
      returns (raises: bool, count: nat)
      requires Counts(seen, run)
      modifies this
      ensures Counts(seen, run + [RecordOf(Outcome(result, arguments))])
      ensures raises <==> Trips(maxRepeats, run, RecordOf(Outcome(result, arguments)))
      ensures raises ==> count == Count(run, RecordOf(Outcome(result, arguments)).key) + 1
    {
      forall key
        ensures Count(run + [RecordOf(Outcome(result, arguments))], key) ==
                Count(run, key) + if RecordOf(Outcome(result, arguments)) == Failed(key) then 1 else 0
      {
        CountAfter(run, RecordOf(Outcome(result, arguments)), key);
      }
      if result.Ok() {
        return false, 0;
      }
      var key := Key(result, arguments);
      count := (if key in seen then seen[key] else 0) + 1;
      seen := seen[key := count];
      raises := count >= maxRepeats;
    }
  }

  // ---------------------------------------------------------------- how many failures a run can hold

  lemma {:induction false} CountsStayBelow(maxRepeats: int, run: seq<Record>, key: string)
    requires NeverTrips(maxRepeats, run)
    ensures Count(run, key) == 0 || Count(run, key) < maxRepeats
    decreases |run|
  {
    if run != [] {
      var init, last := run[..|run| - 1], run[|run| - 1];
      forall i | 0 <= i < |init| ensures !Trips(maxRepeats, init[..i], init[i]) {
        assert init[..i] == run[..i] && init[i] == run[i];
      }
      CountsStayBelow(maxRepeats, init, key);
      assert !Trips(maxRepeats, run[..|run| - 1], run[|run| - 1]);
      assert run == init + [last];
      CountAfter(init, last, key);
    }
  }

  lemma {:induction false} BoundedMultiplicity(m: multiset<string>, keys: set<string>, bound: nat)
    requires forall k :: k in m ==> k in keys && m[k] <= bound
    ensures |m| <= |keys| * bound
    decreases |keys|
  {
    if keys == {} {
      assert m == multiset{};
    } else {
      var k :| k in keys;
      var rest := m[k := 0];
      BoundedMultiplicity(rest, keys - {k}, bound);
      assert |rest| == |m| - m[k];
      assert |keys| * bound == |keys - {k}| * bound + bound;
    }
  }

  function Distinct(keys: seq<string>): set<string> {
    set k | k in keys
  }

  lemma FewOfEachKind(keys: seq<string>, bound: int)
    requires forall k :: multiset(keys)[k] == 0 || multiset(keys)[k] <= bound
    ensures |keys| <= |Distinct(keys)| * bound
  {
    if keys == [] {
      assert Distinct(keys) == {};
    } else {
      assert keys[0] in keys && multiset(keys)[keys[0]] > 0;
      BoundedMultiplicity(multiset(keys), Distinct(keys), bound);
    }
  }

  lemma AllStayBelow(maxRepeats: int, run: seq<Record>)
    requires NeverTrips(maxRepeats, run)
    ensures forall k :: multiset(FailureKeys(run))[k] == 0 || multiset(FailureKeys(run))[k] <= maxRepeats - 1
  {
    forall k ensures multiset(FailureKeys(run))[k] == 0 || multiset(FailureKeys(run))[k] <= maxRepeats - 1 {
      CountsStayBelow(maxRepeats, run, k);
      assert Count(run, k) == multiset(FailureKeys(run))[k];
    }
  }

  /** However successes are interleaved, a run with D distinct failures that never raises has at most
      D * (maxRepeats - 1) failed calls: one more and some record must have raised. */
  lemma PigeonholeBound(maxRepeats: int, run: seq<Record>)
    requires NeverTrips(maxRepeats, run)
    ensures |FailureKeys(run)| <= |Distinct(FailureKeys(run))| * (maxRepeats - 1)
  {
    AllStayBelow(maxRepeats, run);
    FewOfEachKind(FailureKeys(run), maxRepeats - 1);
  }

  // ---------------------------------------------------------------- what a repeat is

  function Records(run: seq<Outcome>): seq<Record> {
    seq(|run|, i requires 0 <= i < |run| => RecordOf(run[i]))
  }

  /** How many failures of the run were this one: same tool, same error, same arguments on paper. */
  function Repetitions(run: seq<Outcome>, o: Outcome): nat {
    if run == [] then 0
    else
      var last := run[|run| - 1];
      Repetitions(run[..|run| - 1], o) + if !last.result.Ok() && SameOnPaper(last, o) then 1 else 0
  }

  lemma {:induction false} RepeatedMeansSeenBefore(run: seq<Outcome>, o: Outcome)
    ensures Repetitions(run, o) > 0 <==>
            exists m :: 0 <= m < |run| && !run[m].result.Ok() && SameOnPaper(run[m], o)
    decreases |run|
  {
    if run != [] {
      var init, n := run[..|run| - 1], |run| - 1;
      RepeatedMeansSeenBefore(init, o);
      if m :| 0 <= m < |init| && !init[m].result.Ok() && SameOnPaper(init[m], o) {
        assert run[m] == init[m];
      }
      if m :| 0 <= m < |run| && !run[m].result.Ok() && SameOnPaper(run[m], o) {
        assert m < n ==> init[m] == run[m];
      }
    }
  }

  lemma RecordTells(o: Outcome, p: Outcome, key: string)
    requires key == Key(p.result, p.arguments)
    ensures RecordOf(o) == Failed(key) <==> !o.result.Ok() && SameOnPaper(o, p)
  {
    KeyTells(o, p);
  }

  lemma RecordsGrow(run: seq<Outcome>)
    requires run != []
    ensures Records(run) == Records(run[..|run| - 1]) + [RecordOf(run[|run| - 1])]
  {}

  lemma {:induction false} KeysCountRepetitions(run: seq<Outcome>, o: Outcome, key: string)
    requires key == Key(o.result, o.arguments)
    ensures Count(Records(run), key) == Repetitions(run, o)
    decreases |run|
  {
    if run != [] {
      var init, last := run[..|run| - 1], run[|run| - 1];
      KeysCountRepetitions(init, o, key);
      RecordsGrow(run);
      CountAfter(Records(init), RecordOf(last), key);
      RecordTells(last, o, key);
    }
  }

  /** Recording raises exactly when this is at least the maxRepeats-th time that this failure is seen, on paper. */
  lemma TripsOnTheNthRepetition(maxRepeats: int, run: seq<Outcome>, o: Outcome)
    ensures Trips(maxRepeats, Records(run), RecordOf(o)) <==> !o.result.Ok() && Repetitions(run, o) + 1 >= maxRepeats
  {
    KeysCountRepetitions(run, o, Key(o.result, o.arguments));
  }

  /** How many failures of the run were this very failure: same tool, same error, same arguments. */
  function Identical(run: seq<Outcome>, o: Outcome): nat {
    if run == [] then 0
    else
      var last := run[|run| - 1];
      Identical(run[..|run| - 1], o) + if !last.result.Ok() && SameFailure(last, o) then 1 else 0
  }

  ghost predicate WellFormedRun(run: seq<Outcome>) {
    forall i :: 0 <= i < |run| ==> WellFormed(JObject(run[i].arguments))
  }

  lemma {:induction false} RepetitionsAreIdentical(run: seq<Outcome>, o: Outcome)
    ensures Repetitions(run, o) >= Identical(run, o)
    ensures WellFormedRun(run) && WellFormed(JObject(o.arguments)) ==> Repetitions(run, o) == Identical(run, o)
    decreases |run|
  {
    if run != [] {
      var init, last := run[..|run| - 1], run[|run| - 1];
      RepetitionsAreIdentical(init, o);
      if WellFormedRun(run) && WellFormed(JObject(o.arguments)) {
        PaperTellsFailures(last, o);
      }
    }
  }

  /** The maxRepeats-th time of one very failure always raises; and without surrogates nothing else does. */
  lemma TripsOnTheNthIdenticalFailure(maxRepeats: int, run: seq<Outcome>, o: Outcome)
    ensures !o.result.Ok() && Identical(run, o) + 1 >= maxRepeats ==> Trips(maxRepeats, Records(run), RecordOf(o))
    ensures WellFormedRun(run) && WellFormed(JObject(o.arguments)) ==>
              (Trips(maxRepeats, Records(run), RecordOf(o)) <==>
               !o.result.Ok() && Identical(run, o) + 1 >= maxRepeats)
  {
    TripsOnTheNthRepetition(maxRepeats, run, o);
    RepetitionsAreIdentical(run, o);
  }
}
