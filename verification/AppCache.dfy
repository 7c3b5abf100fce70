/** Keys in order of their last use, and how many of the latest ones a cache of a given capacity keeps. */
module RecentKeys {

  predicate Distinct<K(==,!new)>(keys: seq<K>) { forall i, j :: 0 <= i < j < |keys| ==> keys[i] != keys[j] }

  function Remove<K(==,!new)>(keys: seq<K>, key: K): (r: seq<K>)
    ensures forall k :: k in r <==> k in keys && k != key
  {
    if keys == [] then []
    else
      assert keys == [keys[0]] + keys[1..];
      if keys[0] == key then Remove(keys[1..], key) else [keys[0]] + Remove(keys[1..], key)
  }

  lemma {:induction false} RemoveConcat<K(!new)>(a: seq<K>, b: seq<K>, key: K)
    ensures Remove(a + b, key) == Remove(a, key) + Remove(b, key)
    decreases |a|
  {
    if a == [] {
      assert a + b == b;
    } else {
      assert (a + b)[1..] == a[1..] + b;
      RemoveConcat(a[1..], b, key);
    }
  }

  lemma {:induction false} RemoveAbsent<K(!new)>(keys: seq<K>, key: K)
    requires key !in keys
    ensures Remove(keys, key) == keys
    decreases |keys|
  {
    if keys != [] {
      assert keys[0] in keys;
      RemoveAbsent(keys[1..], key);
    }
  }

  lemma {:induction false} RemoveOne<K(!new)>(keys: seq<K>, key: K)
    requires Distinct(keys) && key in keys
    ensures |Remove(keys, key)| == |keys| - 1
    decreases |keys|
  {
    if keys[0] == key {
      assert forall k :: k in keys[1..] ==> k != key;
      RemoveAbsent(keys[1..], key);
    } else {
      RemoveOne(keys[1..], key);
    }
  }

  /** The distinct keys of a history, the least recently used first. */
  function ByLastUse<K(==,!new)>(history: seq<K>): (r: seq<K>)
    ensures forall k :: k in r <==> k in history
  {
    if history == [] then []
    else
      var last := history[|history|-1];
      assert history == history[..|history|-1] + [last];
      Remove(ByLastUse(history[..|history|-1]), last) + [last]
  }

  /** The position of the last use of a key. */
  function LastUse<K(==,!new)>(history: seq<K>, key: K): (i: nat)
    requires key in history
    ensures i < |history| && history[i] == key
    ensures forall j :: i < j < |history| ==> history[j] != key
  {
    if history[|history|-1] == key then |history| - 1
    else
      assert history == history[..|history|-1] + [history[|history|-1]];
      LastUse(history[..|history|-1], key)
  }

  function Elements<K(==,!new)>(keys: seq<K>): set<K> { set k | k in keys }

  /** The order is by last use: no key twice, and an earlier key was last used earlier. */
  ghost predicate Ordered<K(!new)>(keys: seq<K>, history: seq<K>) {
    && (forall k :: k in keys ==> k in history)
    && forall i, j :: 0 <= i < j < |keys| ==> LastUse(history, keys[i]) < LastUse(history, keys[j])
  }

  lemma LastUseExtends<K(!new)>(history: seq<K>, last: K, key: K)
    requires key in history && key != last
    ensures LastUse(history + [last], key) == LastUse(history, key)
  {
    assert (history + [last])[..|history|] == history;
  }

  /** The first key of an ordered list was used before all others. */
  lemma FirstIsOldest<K(!new)>(keys: seq<K>, history: seq<K>, k: K)
    requires Ordered(keys, history) && keys != [] && k in keys[1..]
    ensures k in keys && LastUse(history, keys[0]) < LastUse(history, k)
  {
    hide LastUse;
    var m :| 0 <= m < |keys[1..]| && keys[1..][m] == k;
    assert keys[m + 1] == k;
  }

  lemma TailOrdered<K(!new)>(keys: seq<K>, history: seq<K>)
    requires Ordered(keys, history) && keys != []
    ensures Ordered(keys[1..], history)
  {
    hide LastUse;
    var rest := keys[1..];
    assert forall i :: 0 <= i < |rest| ==> rest[i] == keys[i + 1];
  }

  lemma ConsOrdered<K(!new)>(first: K, rest: seq<K>, history: seq<K>)
    requires Ordered(rest, history) && first in history
    requires forall k :: k in rest ==> k in history && LastUse(history, first) < LastUse(history, k)
    ensures Ordered([first] + rest, history)
  {
    hide LastUse;
    var keys := [first] + rest;
    forall i, j | 0 <= i < j < |keys| ensures LastUse(history, keys[i]) < LastUse(history, keys[j]) {
      assert keys[j] == rest[j - 1] && rest[j - 1] in rest;
      if i > 0 { assert keys[i] == rest[i - 1]; }
    }
  }

  lemma {:induction false} RemoveOrdered<K(!new)>(keys: seq<K>, history: seq<K>, key: K)
    requires Ordered(keys, history)
    ensures Ordered(Remove(keys, key), history)
    decreases |keys|
  {
    if keys != [] {
      TailOrdered(keys, history);
      RemoveOrdered(keys[1..], history, key);
      assert keys[0] in history by { assert keys[0] in keys; }
      var rest := Remove(keys[1..], key);
      forall k | k in rest ensures k in history && LastUse(history, keys[0]) < LastUse(history, k) {
        FirstIsOldest(keys, history, k);
      }
      hide Ordered, LastUse;
      ConsOrdered(keys[0], rest, history);
    }
  }

  lemma {:induction false} OrderedByLastUse<K(!new)>(history: seq<K>)
    ensures Ordered(ByLastUse(history), history)
    decreases |history|
  {
    if history != [] {
      var before, last := history[..|history|-1], history[|history|-1];
      assert history == before + [last];
      OrderedByLastUse(before);
      RemoveOrdered(ByLastUse(before), before, last);
      var kept := Remove(ByLastUse(before), last);
      forall k | k in kept ensures LastUse(history, k) == LastUse(before, k) { LastUseExtends(before, last, k); }
      assert LastUse(history, last) == |history| - 1;
    }
  }

  lemma OrderedIsDistinct<K(!new)>(keys: seq<K>, history: seq<K>)
    requires Ordered(keys, history)
    ensures Distinct(keys)
  {
    forall i, j | 0 <= i < j < |keys| ensures keys[i] != keys[j] {
      assert LastUse(history, keys[i]) < LastUse(history, keys[j]);
    }
  }

  function TakeLast<K>(keys: seq<K>, limit: nat): seq<K> {
    if |keys| <= limit then keys else keys[|keys| - limit..]
  }

  /** The latest keys, at most `limit` of them. */
  function Latest<K(==,!new)>(history: seq<K>, limit: nat): seq<K> { TakeLast(ByLastUse(history), limit) }

  lemma AppendUse<K(!new)>(history: seq<K>, key: K)
    ensures ByLastUse(history + [key]) == Remove(ByLastUse(history), key) + [key]
  {
    assert (history + [key])[..|history|] == history;
  }

  lemma RemoveSplit<K(!new)>(dropped: seq<K>, kept: seq<K>, key: K)
    requires Distinct(dropped + kept)
    ensures Remove(dropped + kept, key) ==
      if key in kept then dropped + Remove(kept, key) else Remove(dropped, key) + kept
    ensures key in kept ==> |Remove(kept, key)| == |kept| - 1
  {
    RemoveConcat(dropped, kept, key);
    if key in kept {
      var all := dropped + kept;
      forall k | k in dropped ensures k != key {
        var i :| 0 <= i < |dropped| && dropped[i] == k;
        var j :| 0 <= j < |kept| && kept[j] == key;
        assert all[i] == k && all[|dropped| + j] == key;
      }
      RemoveAbsent(dropped, key);
      assert forall i :: 0 <= i < |kept| ==> kept[i] == all[|dropped| + i];
      RemoveOne(kept, key);
    } else {
      RemoveAbsent(kept, key);
    }
  }

  lemma TakeLastOf<K>(dropped: seq<K>, kept: seq<K>, limit: nat)
    requires |kept| == limit || (|kept| <= limit && dropped == [])
    ensures TakeLast(dropped + kept, limit) == kept
  {
  }

  lemma TakeLastMore<K>(dropped: seq<K>, kept: seq<K>, limit: nat)
    requires |kept| >= limit || dropped == []
    ensures TakeLast(dropped + kept, limit) == TakeLast(kept, limit)
  {
  }

  /** The keys before the latest ones, and how another use acts on both parts. */
  lemma LatestSplit<K(!new)>(history: seq<K>, limit: nat) returns (dropped: seq<K>)
    ensures ByLastUse(history) == dropped + Latest(history, limit) && Distinct(dropped + Latest(history, limit))
    ensures |Latest(history, limit)| == limit || (|Latest(history, limit)| < limit && dropped == [])
  {
    OrderedByLastUse(history);
    OrderedIsDistinct(ByLastUse(history), history);
    hide ByLastUse, Distinct;
    var all := ByLastUse(history);
    dropped := all[..|all| - |Latest(history, limit)|];
    assert all == dropped + Latest(history, limit);
  }

  /** One more use of a kept key moves it to the end; of any other key, appends it and drops the
      oldest beyond the limit. */
  lemma LatestExtends<K(!new)>(history: seq<K>, key: K, limit: nat)
    requires limit > 0
    ensures var kept := Latest(history, limit);
            Latest(history + [key], limit) ==
              if key in kept then Remove(kept, key) + [key] else TakeLast(kept + [key], limit)
  {
    var dropped := LatestSplit(history, limit);
    AppendUse(history, key);
    hide ByLastUse, Remove, Distinct, TakeLast;
    var kept := Latest(history, limit);
    RemoveSplit(dropped, kept, key);
    if key in kept {
      assert dropped + Remove(kept, key) + [key] == dropped + (Remove(kept, key) + [key]);
      TakeLastOf(dropped, Remove(kept, key) + [key], limit);
    } else {
      EmptyRemove(dropped, key);
      assert Remove(dropped, key) + kept + [key] == Remove(dropped, key) + (kept + [key]);
      TakeLastMore(Remove(dropped, key), kept + [key], limit);
    }
  }

  lemma EmptyRemove<K(!new)>(keys: seq<K>, key: K)
    ensures keys == [] ==> Remove(keys, key) == []
  {
  }

  /** A key is among the latest exactly when it was used and fewer than `limit` distinct keys have
      been used since. */
  lemma KeptIffReusedSoon<K(!new)>(history: seq<K>, key: K, limit: nat)
    requires key in history
    ensures key in Latest(history, limit) <==> |Elements(history[LastUse(history, key) + 1..])| < limit
  {
    hide ByLastUse, Elements, LastUse;
    var all := ByLastUse(history);
    OrderedByLastUse(history);
    OrderedIsDistinct(all, history);
    assert key in all;
    var p :| 0 <= p < |all| && all[p] == key;
    LaterKeys(history, p);
    DistinctCount(all[p + 1..]);
    assert |Elements(history[LastUse(history, key) + 1..])| == |all| - p - 1;
    SuffixHas(all, |all| - |Latest(history, limit)|, p);
  }

  lemma SuffixHas<K(!new)>(all: seq<K>, cut: nat, p: nat)
    requires Distinct(all) && p < |all| && cut <= |all|
    ensures all[p] in all[cut..] <==> cut <= p
  {
    var kept := all[cut..];
    if cut <= p { assert kept[p - cut] == all[p]; }
    assert forall j :: 0 <= j < |kept| ==> kept[j] == all[cut + j];
  }

  lemma UsedSince<K(!new)>(history: seq<K>, all: seq<K>, p: nat, at: nat, k: K)
    requires all == ByLastUse(history) && Ordered(all, history) && p < |all| && at == LastUse(history, all[p])
    requires k in history[at + 1..]
    ensures k in all[p + 1..]
  {
    hide ByLastUse, LastUse;
    var i :| 0 <= i < |history[at + 1..]| && history[at + 1..][i] == k;
    assert history[at + 1 + i] == k && k in all;
    var q :| 0 <= q < |all| && all[q] == k;
    assert LastUse(history, all[q]) >= at + 1 + i;
    assert p < q;
    assert all[p + 1..][q - p - 1] == k;
  }

  lemma ListedAfter<K(!new)>(history: seq<K>, all: seq<K>, p: nat, at: nat, k: K)
    requires all == ByLastUse(history) && Ordered(all, history) && p < |all| && at == LastUse(history, all[p])
    requires k in all[p + 1..]
    ensures k in history[at + 1..]
  {
    hide ByLastUse, LastUse;
    var q :| 0 <= q < |all[p + 1..]| && all[p + 1..][q] == k;
    assert all[p + 1 + q] == k;
    var u := LastUse(history, k);
    assert history[at + 1..][u - at - 1] == k;
  }

  /** The keys listed after a key are those used since its last use. */
  lemma LaterKeys<K(!new)>(history: seq<K>, p: nat)
    requires p < |ByLastUse(history)|
    ensures Elements(history[LastUse(history, ByLastUse(history)[p]) + 1..]) == Elements(ByLastUse(history)[p + 1..])
  {
    var all := ByLastUse(history);
    OrderedByLastUse(history);
    hide ByLastUse, LastUse, Ordered;
    var at := LastUse(history, all[p]);
    var since, after := history[at + 1..], all[p + 1..];
    forall k | k in since ensures k in after { UsedSince(history, all, p, at, k); }
    forall k | k in after ensures k in since { ListedAfter(history, all, p, at, k); }
  }

  lemma {:induction false} DistinctCount<K(!new)>(keys: seq<K>)
    requires Distinct(keys)
    ensures |Elements(keys)| == |keys|
    decreases |keys|
  {
    if keys != [] {
      DistinctCount(keys[1..]);
      assert keys == [keys[0]] + keys[1..];
      assert keys[0] !in keys[1..];
      assert Elements(keys) == {keys[0]} + Elements(keys[1..]);
    }
  }
}

/** The cache of ASGI applications built for the MCP servers of the tenants. */
module AppCache {
  import opened FlowGraph
  import opened RecentKeys

  const LIMIT: nat := 64

  /** Schemas stand as their canonical JSON text. */
  datatype Tool = Tool(configId: string, name: string, description: string, request: string, response: Option<string>)
  datatype Prompt = Prompt(id: string, slug: string, title: string, content: string)
  datatype Spec = Spec(tenant: string, server: string, tools: seq<Tool>, vectors: seq<string>, prompts: seq<Prompt>,
                       snapshot: Option<string>, deployment: Option<string>, secret: Option<string>)

  // ----- Keys -----

  datatype ToolKey = ToolKey(configId: string, name: string, request: string, response: string)
  datatype Key = Key(server: string, tools: seq<ToolKey>, vectors: seq<string>, prompts: seq<(string, string)>,
                     snapshot: Option<string>, deployment: Option<string>, secret: string)

  /** The two truncated SHA-256 digests of the source. */
  datatype Digests = Digests(content: string -> string, schema: string -> string)

  function ToolKeyOf(d: Digests, t: Tool): ToolKey {
    ToolKey(t.configId, t.name, d.schema(t.request), d.schema(Response(t)))
  }

  function KeyOf(d: Digests, s: Spec): Key {
    Key(s.server,
        seq(|s.tools|, i requires 0 <= i < |s.tools| => ToolKeyOf(d, s.tools[i])),
        s.vectors,
        seq(|s.prompts|, i requires 0 <= i < |s.prompts| => (s.prompts[i].id, d.content(s.prompts[i].content))),
        s.snapshot, s.deployment, Secret(s))
  }

  // ----- Applications -----

  datatype AppTool = AppTool(name: string, description: Option<string>, request: string, response: Option<string>,
                             configId: string, tenant: string)
  datatype AppPrompt = AppPrompt(slug: string, description: string, text: (string, string))
  datatype App = App(name: string, tools: seq<AppTool>, search: Option<(string, seq<string>)>, prompts: seq<AppPrompt>)

  function Described(t: Tool): Option<string> { if t.description == "" then None else Some(t.description) }

  function Build(s: Spec): App {
    App("tenant-mcp-" + s.server,
        seq(|s.tools|, i requires 0 <= i < |s.tools| =>
          AppTool(s.tools[i].name, Described(s.tools[i]), s.tools[i].request, s.tools[i].response,
                  s.tools[i].configId, s.tenant)),
        if s.vectors == [] then None else Some((s.tenant, s.vectors)),
        seq(|s.prompts|, i requires 0 <= i < |s.prompts| =>
          AppPrompt(s.prompts[i].slug, if s.prompts[i].title != "" then s.prompts[i].title else s.prompts[i].slug,
                    (s.prompts[i].title, s.prompts[i].content))))
  }

  function Contents(s: Spec): set<string> { set p | p in s.prompts :: p.content }

  function Schemas(s: Spec): set<string> { (set t | t in s.tools :: t.request) + (set t | t in s.tools :: Response(t)) }

  /** The digests tell apart the prompt contents, and the schemas, that occur in the two specs. */
  ghost predicate TellsApart(d: Digests, a: Spec, b: Spec) {
    && (forall x, y :: x in Contents(a) && y in Contents(b) && d.content(x) == d.content(y) ==> x == y)
    && (forall x, y :: x in Schemas(a) && y in Schemas(b) && d.schema(x) == d.schema(y) ==> x == y)
  }

  /** Two specs agree on what their applications show and their keys leave out. */
  ghost predicate AgreeOutsideKey(a: Spec, b: Spec)
    requires |a.tools| == |b.tools| && |a.prompts| == |b.prompts|
  {
    && (a.tools != [] || a.vectors != [] ==> a.tenant == b.tenant)
    && (forall i :: 0 <= i < |a.tools| ==>
          Described(a.tools[i]) == Described(b.tools[i]) && a.tools[i].response.Some? == b.tools[i].response.Some?)
    && (forall i :: 0 <= i < |a.prompts| ==>
          a.prompts[i].slug == b.prompts[i].slug && a.prompts[i].title == b.prompts[i].title)
  }

  function Response(t: Tool): string { if t.response.Some? then t.response.value else "{}" }

  function Secret(s: Spec): string { if s.secret.Some? then s.secret.value else "" }

  /** Two specs agree on everything the key is made of. */
  ghost predicate AgreeOnKey(a: Spec, b: Spec) {
    && a.server == b.server && a.vectors == b.vectors && a.snapshot == b.snapshot && a.deployment == b.deployment
    && Secret(a) == Secret(b) && |a.tools| == |b.tools| && |a.prompts| == |b.prompts|
    && (forall i :: 0 <= i < |a.tools| ==>
          && a.tools[i].configId == b.tools[i].configId && a.tools[i].name == b.tools[i].name
          && a.tools[i].request == b.tools[i].request && Response(a.tools[i]) == Response(b.tools[i]))
    && (forall i :: 0 <= i < |a.prompts| ==>
          a.prompts[i].id == b.prompts[i].id && a.prompts[i].content == b.prompts[i].content)
  }

  /** Keys tell apart exactly what they are made of, as far as the digests do. */
  lemma KeysEqualIff(d: Digests, a: Spec, b: Spec)
    requires TellsApart(d, a, b)
    ensures KeyOf(d, a) == KeyOf(d, b) <==> AgreeOnKey(a, b)
  {
    if KeyOf(d, a) == KeyOf(d, b) {
      assert |KeyOf(d, a).tools| == |KeyOf(d, b).tools| && |KeyOf(d, a).prompts| == |KeyOf(d, b).prompts|;
      forall i | 0 <= i < |a.tools|
        ensures a.tools[i].configId == b.tools[i].configId && a.tools[i].name == b.tools[i].name
        ensures a.tools[i].request == b.tools[i].request && Response(a.tools[i]) == Response(b.tools[i])
      {
        assert KeyOf(d, a).tools[i] == ToolKeyOf(d, a.tools[i]) == KeyOf(d, b).tools[i] == ToolKeyOf(d, b.tools[i]);
        assert a.tools[i] in a.tools && b.tools[i] in b.tools;
      }
      forall i | 0 <= i < |a.prompts|
        ensures a.prompts[i].id == b.prompts[i].id && a.prompts[i].content == b.prompts[i].content
      {
        assert KeyOf(d, a).prompts[i] == (a.prompts[i].id, d.content(a.prompts[i].content));
        assert KeyOf(d, b).prompts[i] == (b.prompts[i].id, d.content(b.prompts[i].content));
        assert a.prompts[i] in a.prompts && b.prompts[i] in b.prompts;
      }
    }
  }

  /** When the digests tell the specs apart, an application cached for an equal key is the one a fresh build
      would give exactly when the specs agree on what the key leaves out. */
  lemma CachedIsFreshIff(d: Digests, a: Spec, b: Spec)
    requires KeyOf(d, a) == KeyOf(d, b) && TellsApart(d, a, b)
    ensures |a.tools| == |b.tools| && |a.prompts| == |b.prompts|
    ensures Build(a) == Build(b) <==> AgreeOutsideKey(a, b)
  {
    KeysEqualIff(d, a, b);
    hide KeyOf, TellsApart;
    if Build(a) == Build(b) {
      forall i | 0 <= i < |a.tools|
        ensures Described(a.tools[i]) == Described(b.tools[i]) && a.tools[i].response == b.tools[i].response
        ensures a.tenant == b.tenant
      {
        assert Build(a).tools[i] == Build(b).tools[i];
      }
      assert a.tools != [] ==> Build(a).tools[0] == Build(b).tools[0];
      forall i | 0 <= i < |a.prompts|
        ensures a.prompts[i].slug == b.prompts[i].slug && a.prompts[i].title == b.prompts[i].title
      {
        assert Build(a).prompts[i] == Build(b).prompts[i];
      }
    }
  }

  /** A prompt given a new title keeps its key, so the old title goes on being served. */
  lemma RetitledPromptIsStale(d: Digests, s: Spec, title: string) returns (renamed: Spec)
    requires s.prompts != [] && title != s.prompts[0].title
    ensures renamed == s.(prompts := s.prompts[0 := s.prompts[0].(title := title)])
    ensures KeyOf(d, renamed) == KeyOf(d, s) && Build(renamed) != Build(s)
  {
    renamed := s.(prompts := s.prompts[0 := s.prompts[0].(title := title)]);
    assert KeyOf(d, renamed).prompts == KeyOf(d, s).prompts;
    assert Build(renamed).prompts[0].text != Build(s).prompts[0].text;
  }

  // ----- The cache -----

  ghost function Keys(d: Digests, specs: seq<Spec>): seq<Key> {
    seq(|specs|, i requires 0 <= i < |specs| => KeyOf(d, specs[i]))
  }

  ghost predicate BuiltFor(d: Digests, specs: seq<Spec>, key: Key, app: App) {
    exists s :: s in specs && KeyOf(d, s) == key && app == Build(s)
  }

  lemma KeysExtend(d: Digests, specs: seq<Spec>, spec: Spec)
    ensures Keys(d, specs + [spec]) == Keys(d, specs) + [KeyOf(d, spec)]
  {
  }

  lemma StillBuiltFor(d: Digests, specs: seq<Spec>, spec: Spec)
    ensures forall k, app :: BuiltFor(d, specs, k, app) ==> BuiltFor(d, specs + [spec], k, app)
  {
    hide KeyOf, Build;
    forall k, app | BuiltFor(d, specs, k, app) ensures BuiltFor(d, specs + [spec], k, app) {
      var s :| s in specs && KeyOf(d, s) == k && app == Build(s);
      assert s in specs + [spec];
    }
  }

  lemma JustBuilt(d: Digests, specs: seq<Spec>, spec: Spec)
    requires spec in specs
    ensures BuiltFor(d, specs, KeyOf(d, spec), Build(spec))
  {
  }

  lemma LatestFits(history: seq<Key>)
    ensures |Latest(history, LIMIT)| <= LIMIT && RecentKeys.Distinct(Latest(history, LIMIT))
  {
    OrderedByLastUse(history);
    OrderedIsDistinct(ByLastUse(history), history);
  }

  lemma AppendNew(keys: seq<Key>, key: Key)
    requires RecentKeys.Distinct(keys) && key !in Elements(keys)
    ensures Elements(keys + [key]) == Elements(keys) + {key} && RecentKeys.Distinct(keys + [key])
  {
    assert forall i :: 0 <= i < |keys| ==> keys[i] in Elements(keys);
  }

  lemma DropFirst(keys: seq<Key>)
    requires RecentKeys.Distinct(keys) && keys != []
    ensures Elements(keys[1..]) == Elements(keys) - {keys[0]} && RecentKeys.Distinct(keys[1..])
  {
    assert keys == [keys[0]] + keys[1..];
  }

  class Cache {
    const digests: Digests
    var order: seq<Key>             // the ordered dictionary: its keys, oldest first,
    var apps: map<Key, App>         // and their values
    ghost var requested: seq<Spec>  // since the cache was last cleared

    ghost predicate Valid() reads this {
      && order == Latest(Keys(digests, requested), LIMIT)
      && apps.Keys == Elements(order)
      && forall k :: k in order ==> BuiltFor(digests, requested, k, apps[k])
    }

    constructor (digests: Digests)
      ensures Valid() && requested == [] && this.digests == digests
    {
      this.digests := digests;
      order, apps, requested := [], map[], [];
    }

    /** The cache then holds the latest 64 distinct keys in order of last use, and the application
        was built from a requested spec with this key. */
    method Get(spec: Spec) returns (app: App)
      requires Valid()
      modifies this
      ensures Valid() && requested == old(requested) + [spec]
      ensures BuiltFor(digests, requested, KeyOf(digests, spec), app)
      ensures KeyOf(digests, spec) !in Latest(Keys(digests, old(requested)), LIMIT) ==> app == Build(spec)
      ensures KeyOf(digests, spec) in old(apps) ==> app == old(apps)[KeyOf(digests, spec)]
    {
      hide Latest, KeyOf, Build, Remove, BuiltFor, TakeLast, Keys;
      var key := KeyOf(digests, spec);
      requested := requested + [spec];
      KeysExtend(digests, old(requested), spec);
      LatestExtends(Keys(digests, old(requested)), key, LIMIT);
      StillBuiltFor(digests, old(requested), spec);
      if key in apps {
        order := Remove(order, key) + [key];
        return apps[key];
      }
      app := Build(spec);
      LatestFits(Keys(digests, old(requested)));
      Insert(key, app);
      JustBuilt(digests, requested, spec);
    }

    /** Appends an entry and drops the oldest ones beyond the limit. */
    method Insert(key: Key, app: App)
      requires |order| <= LIMIT && RecentKeys.Distinct(order) && apps.Keys == Elements(order) && key !in apps
      modifies this`order, this`apps
      ensures order == TakeLast(old(order) + [key], LIMIT)
      ensures apps.Keys == Elements(order)
      ensures forall k :: k in apps ==> k in old(apps)[key := app] && apps[k] == old(apps)[key := app][k]
    {
      hide Elements, RecentKeys.Distinct;
      ghost var added, all, dropped: nat := order + [key], apps[key := app], 0;
      AppendNew(order, key);
      order, apps := order + [key], apps[key := app];
      while |order| > LIMIT
        invariant dropped <= |added| && order == added[dropped..] && (dropped > 0 ==> |order| >= LIMIT)
        invariant RecentKeys.Distinct(order) && apps.Keys == Elements(order)
        invariant forall k :: k in apps ==> k in all && apps[k] == all[k]
      {
        DropFirst(order);
        apps := apps - {order[0]};
        order, dropped := order[1..], dropped + 1;
      }
    }

    method Clear()
      modifies this
      ensures Valid() && requested == []
    {
      order, apps, requested := [], map[], [];
    }
  }
}
