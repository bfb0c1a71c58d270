/** The delta callback registered by `initSubscriptions`: every root-path
    value that carries an `mmsi` and resolves to a country makes the plugin
    emit a `flag`/`port` message on the same vessel context. */
module Annotator {
  import opened Options
  import opened Resolver

  /** A JavaScript value as far as the callback can observe it (arrays and
      non-integral numbers are not represented). */
  datatype Value =
    | Undefined
    | Null
    | Bool(b: bool)
    | Num(n: int)
    | Str(s: string)
    | Obj(fields: map<string, Value>)

  /** JavaScript truthiness. */
  predicate Truthy(v: Value) {
    match v
    case Undefined => false
    case Null => false
    case Bool(b) => b
    case Num(n) => n != 0
    case Str(s) => s != ""
    case Obj(_) => true
  }

  datatype PathValue = PathValue(path: string, value: Value)

  /** An update; `values` is `None` when `hasValues(u)` is false. */
  datatype Update = Update(values: Option<seq<PathValue>>)

  /** A delta; `updates` is `None` when the field is missing. */
  datatype Delta = Delta(context: string, updates: Option<seq<Update>>)

  /** What one value entry does inside the callback: nothing, one emitted
      message for a resolved country, or a `TypeError` that ends the callback. */
  datatype EntryEffect = Ignore | Annotate(country: CountryRecord) | Throw

  /** The outcome of one callback run: the messages handed to the host in
      order, and whether the run finished without throwing. */
  datatype Annotation = Annotation(messages: seq<Delta>, completed: bool)

  /** The argument `countryFromMmsi` can work with: a number or a string.
      Any other value has no callable `slice`, so the call throws. */
  function MmsiArgument(v: Value): Option<Mmsi>
  {
    match v
    case Num(n) => Some(NumberMmsi(n))
    case Str(s) => Some(StringMmsi(s))
    case _ => None
  }

  /** `country[i]` on a table row: `undefined` past its end. */
  function Element(country: CountryRecord, i: nat): Value
  {
    if i < |country| then Str(country[i]) else Undefined
  }

  /** The message emitted for a resolved country. */
  function FlagMessage(context: string, country: CountryRecord): (m: Delta)
    ensures m.context == context && m.updates.Some? && |m.updates.value| == 1
    ensures var u := m.updates.value[0];
      u.values.Some? && |u.values.value| == 2
      && u.values.value[0] == PathValue("flag", Element(country, 0))
      && u.values.value[1] == PathValue("port", Element(country, 3))
  {
    Delta(context, Some([Update(Some([PathValue("flag", Element(country, 0)), PathValue("port", Element(country, 3))]))]))
  }

  /** `m` is the message for some row of the table, on `context`. */
  ghost predicate IsFlagMessageFrom(table: MidTable, context: string, m: Delta) {
    exists c :: c in table.Values && m == FlagMessage(context, c)
  }

  /** The effect of one entry `v` of `u.values`. The `in` test throws when
      the value is a truthy primitive rather than an object. */
  function EntryEffectOf(table: MidTable, e: PathValue): (r: EntryEffect)
    ensures e.path != "" || !Truthy(e.value) ==> r.Ignore?
    ensures e.path == "" && e.value.Obj? && "mmsi" !in e.value.fields ==> r.Ignore?
    ensures e.path == "" && Truthy(e.value) && !e.value.Obj? ==> r.Throw?
    ensures e.path == "" && e.value.Obj? && "mmsi" in e.value.fields ==>
      var arg := MmsiArgument(e.value.fields["mmsi"]);
      && (arg.None? ==> r.Throw?)
      && (arg.Some? ==> !r.Throw? && (r.Annotate? <==> CountryFromMmsi(table, arg.value).Some?))
    ensures r.Annotate? ==>
      && e.path == "" && e.value.Obj? && "mmsi" in e.value.fields
      && MmsiArgument(e.value.fields["mmsi"]).Some?
      && CountryFromMmsi(table, MmsiArgument(e.value.fields["mmsi"]).value) == Some(r.country)
      && r.country in table.Values
  {
    if e.path != "" || !Truthy(e.value) then Ignore
    else match e.value
      case Obj(fields) =>
        if "mmsi" !in fields then Ignore
        else (match MmsiArgument(fields["mmsi"])
              case None => Throw
              case Some(m) =>
                (match CountryFromMmsi(table, m)
                 case None => Ignore
                 case Some(c) => Annotate(c)))
      case _ => Throw
  }

  /** The values of an update, or none when it fails `hasValues`. */
  function ValuesOf(u: Update): seq<PathValue>
  {
    if u.values.Some? then u.values.value else []
  }

  /** All value entries of the updates in visiting order (updates failing
      `hasValues` contribute nothing). */
  function Entries(us: seq<Update>): seq<PathValue>
  {
    if |us| == 0 then []
    else Entries(us[..|us| - 1]) + ValuesOf(us[|us| - 1])
  }

  /** What one entry does in front of the run over the entries after it. */
  function Step(context: string, effect: EntryEffect, rest: Annotation): Annotation
  {
    match effect
    case Ignore => rest
    case Throw => Annotation([], false)
    case Annotate(c) => Annotation([FlagMessage(context, c)] + rest.messages, rest.completed)
  }

  /** Visits the entries in order, emitting one message per resolved
      identity entry and stopping at the first entry that throws. */
  function Run(table: MidTable, context: string, es: seq<PathValue>): (r: Annotation)
    ensures |r.messages| <= |es|
    ensures forall i :: 0 <= i < |r.messages| ==> r.messages[i].context == context
  {
    if |es| == 0 then Annotation([], true)
    else Step(context, EntryEffectOf(table, es[0]), Run(table, context, es[1..]))
  }

  /** A run over `first` followed by a run that starts only if `first` finished. */
  function Then(first: Annotation, second: Annotation): Annotation
  {
    if first.completed then Annotation(first.messages + second.messages, second.completed) else first
  }

  /** The callback on one delta: nothing without `updates`, otherwise a run
      over all value entries on the delta's context. */
  function OnDelta(table: MidTable, d: Delta): (r: Annotation)
    ensures d.updates.None? ==> r == Annotation([], true)
    ensures forall i :: 0 <= i < |r.messages| ==> r.messages[i].context == d.context
  {
    if d.updates.None? then Annotation([], true)
    else
      Run(table, d.context, Entries(d.updates.value))
  }

  // ------------------------------------------------------------ reference

  /** The country of an identity entry: a root-path object whose `mmsi` is
      a number or string with a MID in the table. */
  function IdentityCountry(table: MidTable, e: PathValue): Option<CountryRecord>
  {
    if e.path == "" && e.value.Obj? && "mmsi" in e.value.fields
       && MmsiArgument(e.value.fields["mmsi"]).Some?
    then CountryFromMmsi(table, MmsiArgument(e.value.fields["mmsi"]).value)
    else None
  }

  /** The countries of the identity entries that resolve, in entry order:
      a plain filter, independent of the callback's control flow. */
  function Resolved(table: MidTable, es: seq<PathValue>): seq<CountryRecord>
  {
    if |es| == 0 then []
    else
      var rest := Resolved(table, es[1..]);
      match IdentityCountry(table, es[0])
      case Some(c) => [c] + rest
      case None => rest
  }

  function FlagMessages(context: string, cs: seq<CountryRecord>): (ms: seq<Delta>)
    ensures |ms| == |cs|
    ensures forall i :: 0 <= i < |cs| ==> ms[i] == FlagMessage(context, cs[i])
  {
    seq(|cs|, i requires 0 <= i < |cs| => FlagMessage(context, cs[i]))
  }

  /** A run that does not throw emits exactly one message per resolved
      entry, in entry order, and nothing else. */
  lemma {:induction false} CompletedRunEmitsResolved(table: MidTable, context: string, es: seq<PathValue>)
    requires Run(table, context, es).completed
    ensures Run(table, context, es).messages == FlagMessages(context, Resolved(table, es))
  {
    if |es| > 0 {
      CompletedRunEmitsResolved(table, context, es[1..]);
    }
  }

  /** A run completes exactly when no entry throws. */
  lemma {:induction false} RunCompletesIffNoThrow(table: MidTable, context: string, es: seq<PathValue>)
    ensures Run(table, context, es).completed <==> forall j :: 0 <= j < |es| ==> !EntryEffectOf(table, es[j]).Throw?
  {
    if |es| > 0 {
      RunCompletesIffNoThrow(table, context, es[1..]);
      assert forall j :: 1 <= j < |es| ==> es[j] == es[1..][j - 1];
    }
  }

  /** Every message a run emits is the flag message of some table row. */
  lemma {:induction false} RunMessagesFromTable(table: MidTable, context: string, es: seq<PathValue>)
    ensures forall i :: 0 <= i < |Run(table, context, es).messages| ==> IsFlagMessageFrom(table, context, Run(table, context, es).messages[i])
  {
    if |es| > 0 {
      RunMessagesFromTable(table, context, es[1..]);
      var e := EntryEffectOf(table, es[0]);
      if e.Annotate? {
        var ms := Run(table, context, es).messages;
        assert ms == [FlagMessage(context, e.country)] + Run(table, context, es[1..]).messages;
        forall i | 0 <= i < |ms|
          ensures IsFlagMessageFrom(table, context, ms[i])
        {
          if i == 0 {
            assert ms[0] == FlagMessage(context, e.country);
          } else {
            assert ms[i] == Run(table, context, es[1..]).messages[i - 1];
          }
        }
      }
    }
  }

  /** Running over a concatenation is running over the first part and, if
      that did not throw, continuing with the second. */
  lemma {:induction false} RunAppend(table: MidTable, context: string, a: seq<PathValue>, b: seq<PathValue>)
    ensures Run(table, context, a + b) == Then(Run(table, context, a), Run(table, context, b))
  {
    if |a| == 0 {
      assert a + b == b;
    } else {
      var ab := a + b;
      assert ab[0] == a[0];
      assert ab[1..] == a[1..] + b;
      RunAppend(table, context, a[1..], b);
      StepThen(context, EntryEffectOf(table, a[0]), Run(table, context, a[1..]), Run(table, context, b));
    }
  }

  lemma StepThen(context: string, effect: EntryEffect, x: Annotation, y: Annotation)
    ensures Step(context, effect, Then(x, y)) == Then(Step(context, effect, x), y)
  {
    if effect.Annotate? && x.completed {
      assert [FlagMessage(context, effect.country)] + (x.messages + y.messages)
          == ([FlagMessage(context, effect.country)] + x.messages) + y.messages;
    }
  }

  /** What one entry adds to a run that reached it: nothing when it is not
      a resolvable identity entry, exactly its one message when it is, and
      an abrupt end (the rest is never visited) when it throws. */
  lemma EntryContribution(table: MidTable, context: string, pre: seq<PathValue>, e: PathValue, post: seq<PathValue>)
    requires Run(table, context, pre).completed
    ensures var whole := Run(table, context, pre + [e] + post);
      var before := Run(table, context, pre).messages;
      match EntryEffectOf(table, e)
      case Ignore => whole == Run(table, context, pre + post)
      case Annotate(c) =>
        whole.messages == before + [FlagMessage(context, c)] + Run(table, context, post).messages
        && whole.completed == Run(table, context, post).completed
      case Throw => whole == Annotation(before, false)
  {
    RunAppend(table, context, pre, [e] + post);
    RunAppend(table, context, pre, post);
    assert pre + [e] + post == pre + ([e] + post);
    assert ([e] + post)[0] == e && ([e] + post)[1..] == post;
    var rest := Run(table, context, post);
    assert Run(table, context, [e] + post) == Step(context, EntryEffectOf(table, e), rest);
    var before := Run(table, context, pre).messages;
    assert Run(table, context, pre) == Annotation(before, true);
    match EntryEffectOf(table, e) {
      case Ignore =>
      case Throw =>
        assert before + [] == before;
      case Annotate(c) =>
        assert before + ([FlagMessage(context, c)] + rest.messages) == before + [FlagMessage(context, c)] + rest.messages;
    }
  }

  /** A delta without updates, or whose updates all lack values, emits nothing. */
  lemma EmptyDeltaEmitsNothing(table: MidTable, d: Delta)
    requires d.updates.Some? ==> forall i :: 0 <= i < |d.updates.value| ==> ValuesOf(d.updates.value[i]) == []
    ensures OnDelta(table, d) == Annotation([], true)
  {
    if d.updates.Some? {
      NoValuesNoEntries(d.updates.value);
    }
  }

  lemma {:induction false} NoValuesNoEntries(us: seq<Update>)
    requires forall i :: 0 <= i < |us| ==> ValuesOf(us[i]) == []
    ensures Entries(us) == []
  {
    if |us| > 0 {
      NoValuesNoEntries(us[..|us| - 1]);
    }
  }

  /** A delta whose one entry is `{path: "", value: {mmsi: n}}` with a
      resolvable `n` emits exactly one message with that country's flag and port. */
  lemma SingleIdentityEntry(table: MidTable, context: string, n: int, others: map<string, Value>, c: CountryRecord)
    requires CountryFromMmsi(table, NumberMmsi(n)) == Some(c)
    ensures var e := PathValue("", Obj(others["mmsi" := Num(n)]));
      OnDelta(table, Delta(context, Some([Update(Some([e]))]))) == Annotation([FlagMessage(context, c)], true)
  {
    var e := PathValue("", Obj(others["mmsi" := Num(n)]));
    assert Entries([Update(Some([e]))]) == [e] by {
      assert [Update(Some([e]))][..0] == [];
    }
    assert EntryEffectOf(table, e) == Annotate(c);
    assert [e][1..] == [];
    assert Run(table, context, [e]) == Annotation([FlagMessage(context, c)] + Run(table, context, []).messages, true);
  }

  // --------------------------------------------------------- the callback

  /** The callback as the source writes it: `forEach` over the updates,
      skipping those without values, and `forEach` over their values,
      handing each message to the host as soon as it is built. */
  method DeliverDelta(table: MidTable, d: Delta) returns (sent: seq<Delta>, completed: bool)
    ensures Annotation(sent, completed) == OnDelta(table, d)
  {
    sent, completed := [], true;
    if d.updates.None? {
      return;
    }
    var context := d.context;
    var us := d.updates.value;
    var i := 0;
    while i < |us|
      invariant 0 <= i <= |us|
      invariant Run(table, context, Entries(us[..i])) == Annotation(sent, true)
    {
      var vs := ValuesOf(us[i]);
      var j := 0;
      assert Entries(us[..i]) + vs[..j] == Entries(us[..i]);
      while j < |vs|
        invariant 0 <= j <= |vs|
        invariant Run(table, context, Entries(us[..i]) + vs[..j]) == Annotation(sent, true)
      {
        RunSnoc(table, context, Entries(us[..i]) + vs[..j], vs[j], sent);
        SliceSnoc(Entries(us[..i]), vs, j);
        match EntryEffectOf(table, vs[j]) {
          case Ignore =>
          case Annotate(c) =>
            sent := sent + [FlagMessage(context, c)];
          case Throw =>
            ThrowEndsDelta(table, context, us, i, j);
            completed := false;
            return;
        }
        j := j + 1;
      }
      assert vs[..j] == vs;
      EntriesSnoc(us, i);
      i := i + 1;
    }
    assert us[..i] == us;
  }

  /** One more entry after a run that has not thrown. */
  lemma RunSnoc(table: MidTable, context: string, pre: seq<PathValue>, e: PathValue, sent: seq<Delta>)
    requires Run(table, context, pre) == Annotation(sent, true)
    ensures Run(table, context, pre + [e]) ==
      match EntryEffectOf(table, e)
      case Ignore => Annotation(sent, true)
      case Annotate(c) => Annotation(sent + [FlagMessage(context, c)], true)
      case Throw => Annotation(sent, false)
  {
    RunAppend(table, context, pre, [e]);
    assert [e][1..] == [];
    assert sent + [] == sent;
  }

  lemma SliceSnoc<T>(a: seq<T>, vs: seq<T>, j: nat)
    requires j < |vs|
    ensures a + vs[..j + 1] == (a + vs[..j]) + [vs[j]]
  {
    assert vs[..j + 1] == vs[..j] + [vs[j]];
  }

  /** Once entry `j` of update `i` has thrown, nothing after it matters. */
  lemma ThrowEndsDelta(table: MidTable, context: string, us: seq<Update>, i: nat, j: nat)
    requires i < |us| && j < |ValuesOf(us[i])|
    requires !Run(table, context, Entries(us[..i]) + ValuesOf(us[i])[..j + 1]).completed
    ensures Run(table, context, Entries(us)) == Run(table, context, Entries(us[..i]) + ValuesOf(us[i])[..j + 1])
  {
    var vs := ValuesOf(us[i]);
    EntriesSplit(us, i, j);
    RunAppend(table, context, Entries(us[..i]) + vs[..j + 1], vs[j + 1..] + Entries(us[i + 1..]));
  }

  /** The entries of all updates are those before update `i`, the first `j`
      values of update `i`, its value `j`, and everything after. */
  lemma EntriesSplit(us: seq<Update>, i: nat, j: nat)
    requires i < |us| && j < |ValuesOf(us[i])|
    ensures Entries(us) == Entries(us[..i]) + ValuesOf(us[i])[..j + 1] + (ValuesOf(us[i])[j + 1..] + Entries(us[i + 1..]))
  {
    var vs := ValuesOf(us[i]);
    EntriesAppend(us[..i + 1], us[i + 1..]);
    assert us[..i + 1] + us[i + 1..] == us;
    EntriesSnoc(us, i);
    Regroup(Entries(us[..i]), vs, j + 1, Entries(us[i + 1..]));
  }

  lemma EntriesSnoc(us: seq<Update>, i: nat)
    requires i < |us|
    ensures Entries(us[..i + 1]) == Entries(us[..i]) + ValuesOf(us[i])
  {
    assert us[..i + 1][..i] == us[..i];
  }

  lemma Regroup<T>(a: seq<T>, vs: seq<T>, k: nat, d: seq<T>)
    requires k <= |vs|
    ensures (a + vs) + d == a + vs[..k] + (vs[k..] + d)
  {
    assert vs == vs[..k] + vs[k..];
  }

  lemma {:induction false} EntriesAppend(a: seq<Update>, b: seq<Update>)
    ensures Entries(a + b) == Entries(a) + Entries(b)
    decreases |b|
  {
    if |b| == 0 {
      assert a + b == a;
    } else {
      var b' := b[..|b| - 1];
      EntriesAppend(a, b');
      assert (a + b)[..|a + b| - 1] == a + b';
      assert b[..|b| - 1] == b';
    }
  }
}
