/** State keys of the alert evaluator (internal/alert/evaluator.go): rule, instance and sorted labels. */
module AlertKeys {
  import opened Sorting

  /** Go's string order: by code, position by position. */
  predicate StrLe(a: string, b: string) { LexLe(Codes(a), Codes(b)) }

  function Codes(s: string): (r: seq<int>)
    ensures |r| == |s|
  {
    seq(|s|, i requires 0 <= i < |s| => s[i] as int)
  }

  lemma SameCodes(a: string, b: string)
    requires Codes(a) == Codes(b)
    ensures a == b
  {
    assert |a| == |b|;
    forall i | 0 <= i < |a| ensures a[i] == b[i] { assert Codes(a)[i] == Codes(b)[i]; }
  }

  lemma StrOrder()
    ensures TotalPreorder(StrLe) && Antisymmetric(StrLe)
  {
    forall x, y ensures StrLe(x, y) || StrLe(y, x) { LexTotal(Codes(x), Codes(y)); }
    forall x, y, z | StrLe(x, y) && StrLe(y, z) ensures StrLe(x, z) { LexTransitive(Codes(x), Codes(y), Codes(z)); }
    forall x, y | StrLe(x, y) && StrLe(y, x) ensures x == y {
      LexAntisymmetric(Codes(x), Codes(y));
      SameCodes(x, y);
    }
  }

  function StateKey(ruleId: string, instanceId: string): string { ruleId + ":" + instanceId }

  /** ":k=v" for the first `n` of the given keys. */
  function LabelSuffix(keys: seq<string>, labels: map<string, string>, n: nat): string
    requires n <= |keys| && forall i :: 0 <= i < |keys| ==> keys[i] in labels
  {
    if n == 0 then "" else LabelSuffix(keys, labels, n - 1) + ":" + keys[n - 1] + "=" + labels[keys[n - 1]]
  }

  ghost function SeqOf(s: set<string>): (r: seq<string>)
    ensures multiset(r) == multiset(s)
    decreases s
  {
    if s == {} then []
    else
      var x :| x in s;
      assert s == (s - {x}) + {x};
      SeqOf(s - {x}) + [x]
  }

  /** The keys of a label set in string order. */
  ghost function SortedKeys(s: set<string>): (r: seq<string>)
    ensures multiset(r) == multiset(s) && SortedBy(r, StrLe)
    ensures forall i :: 0 <= i < |r| ==> r[i] in s
  {
    StrOrder();
    var r := Sort(SeqOf(s), StrLe);
    assert forall i :: 0 <= i < |r| ==> r[i] in multiset(r);
    r
  }

  ghost function Suffix(labels: map<string, string>): string {
    var keys := SortedKeys(labels.Keys);
    LabelSuffix(keys, labels, |keys|)
  }

  ghost function KeyOf(ruleId: string, instanceId: string, labels: map<string, string>): string {
    StateKey(ruleId, instanceId) + Suffix(labels)
  }

  /** Whatever order the label map is ranged in, the key is the same. */
  method StateKeyWithLabels(ruleId: string, instanceId: string, labels: map<string, string>) returns (key: string)
    ensures key == KeyOf(ruleId, instanceId, labels)
  {
    key := ruleId + ":" + instanceId;
    if |labels| > 0 {
      var keys := Enumerate(labels.Keys);
      StrOrder();
      hide StrLe;
      var sorted := Sort(keys, StrLe);
      SamePermutation(sorted, keys);
      SortedUnique(sorted, SortedKeys(labels.Keys), StrLe);
      var suffix := AppendLabels(sorted, labels);
      key := key + suffix;
    } else {
      NoLabels(labels);
    }
  }

  method AppendLabels(keys: seq<string>, labels: map<string, string>) returns (suffix: string)
    requires forall i :: 0 <= i < |keys| ==> keys[i] in labels
    ensures suffix == LabelSuffix(keys, labels, |keys|)
  {
    suffix := "";
    for i := 0 to |keys|
      invariant suffix == LabelSuffix(keys, labels, i)
    {
      suffix := suffix + ":" + keys[i] + "=" + labels[keys[i]];
    }
  }

  lemma NoLabels(labels: map<string, string>)
    requires |labels| == 0
    ensures SortedKeys(labels.Keys) == []
  {
    assert labels.Keys == {};
    assert |SortedKeys(labels.Keys)| == |multiset(SortedKeys(labels.Keys))|;
  }

  /** A rule without labels is keyed exactly as `RestoreState` keys its history. */
  lemma LabelFreeKey(ruleId: string, instanceId: string)
    ensures KeyOf(ruleId, instanceId, map[]) == StateKey(ruleId, instanceId)
  {
    NoLabels(map[]);
  }

  /** The pattern rule ids are validated against: lower-case letters, digits, dash and underscore. */
  predicate SlugStart(c: char) { 'a' <= c <= 'z' || '0' <= c <= '9' }

  predicate Slug(id: string) {
    id != [] && SlugStart(id[0]) && forall i :: 0 < i < |id| ==> SlugStart(id[i]) || id[i] == '_' || id[i] == '-'
  }

  /** What keys need of a rule id. */
  predicate ColonFree(id: string) { ':' !in id }

  /** The API's validation gives it. */
  lemma SlugHasNoColon(id: string)
    requires Slug(id)
    ensures ColonFree(id)
  {
  }

  lemma SplitAtColon(a: string, b: string, x: string, y: string)
    requires ':' !in a && ':' !in b && a + ":" + x == b + ":" + y
    ensures a == b && x == y
  {
    var k := a + ":" + x;
    assert k[|a|] == ':' && k[|b|] == ':';
    assert forall i :: 0 <= i < |a| ==> k[i] == a[i];
    assert forall i :: 0 <= i < |b| ==> k[i] == b[i];
    assert a == k[..|a|] && b == k[..|b|];
    assert x == k[|a| + 1..] && y == k[|b| + 1..];
  }

  lemma SplitAtLastColon(x: string, y: string, a: string, b: string)
    requires ':' !in a && ':' !in b && x + ":" + a == y + ":" + b
    ensures x == y && a == b
  {
    var k := x + ":" + a;
    assert k[|x|] == ':' && k[|y|] == ':';
    assert forall i :: |x| < i < |k| ==> k[i] == a[i - |x| - 1];
    assert forall i :: |y| < i < |k| ==> k[i] == b[i - |y| - 1];
    assert x == k[..|x|] && y == k[..|y|];
    assert a == k[|x| + 1..] && b == k[|y| + 1..];
  }

  lemma DropSuffix(x: string, y: string, s: string)
    requires x + s == y + s
    ensures x == y
  {
    assert |x| == |y|;
    assert x == (x + s)[..|x|] && y == (y + s)[..|y|];
  }

  /** With colon-free ids, and labels fixed by the rule, different (rule, instance) pairs have different keys. */
  lemma KeyInjective(r1: string, i1: string, l1: map<string, string>, r2: string, i2: string, l2: map<string, string>)
    requires ColonFree(r1) && ColonFree(r2) && (r1 == r2 ==> l1 == l2)
    requires KeyOf(r1, i1, l1) == KeyOf(r2, i2, l2)
    ensures r1 == r2 && i1 == i2
  {
    KeyShape(r1, i1, l1);
    KeyShape(r2, i2, l2);
    hide KeyOf, Suffix;
    SplitAtColon(r1, r2, i1 + Suffix(l1), i2 + Suffix(l2));
    DropSuffix(i1, i2, Suffix(l1));
  }

  lemma KeyShape(ruleId: string, instanceId: string, labels: map<string, string>)
    ensures KeyOf(ruleId, instanceId, labels) == ruleId + ":" + (instanceId + Suffix(labels))
  {
    hide Suffix;
  }

  /** The key of a rule with one label, written out. */
  lemma OneLabelKey(ruleId: string, instanceId: string, k: string, v: string)
    ensures KeyOf(ruleId, instanceId, map[k := v]) == ruleId + ":" + instanceId + ":" + k + "=" + v
  {
    var labels := map[k := v];
    var keys := SortedKeys(labels.Keys);
    assert labels.Keys == {k} && multiset(keys) == multiset{k} && |keys| == |multiset(keys)|;
    assert keys[0] in multiset(keys);
    assert LabelSuffix(keys, labels, 0) == "" && LabelSuffix(keys, labels, 1) == "" + ":" + k + "=" + v;
    assert Suffix(labels) == ":" + k + "=" + v;
    hide Suffix, KeyOf;
    KeyShape(ruleId, instanceId, labels);
    var x := instanceId + (":" + k + "=" + v);
    assert ruleId + ":" + x == ruleId + ":" + instanceId + ":" + k + "=" + v;
  }

  /** With a label the key is not the label-free one. */
  lemma LabelLengthens(ruleId: string, instanceId: string, labels: map<string, string>, k: string)
    requires k in labels
    ensures KeyOf(ruleId, instanceId, labels) != StateKey(ruleId, instanceId)
  {
    var keys := SortedKeys(labels.Keys);
    assert k in multiset(keys);
    assert keys != [];
    assert |LabelSuffix(keys, labels, |keys|)| >= 2;
    assert |KeyOf(ruleId, instanceId, labels)| > |StateKey(ruleId, instanceId)|;
  }

  lemma StateKeyInjective(r1: string, i1: string, r2: string, i2: string)
    requires ColonFree(r1) && ColonFree(r2) && StateKey(r1, i1) == StateKey(r2, i2)
    ensures r1 == r2 && i1 == i2
  {
    SplitAtColon(r1, r2, i1, i2);
  }

  /** Without that, two pairs can share a key. */
  lemma ColonCollides()
    ensures StateKey("a:b", "c") == StateKey("a", "b:c")
  {
    assert "a:b" + ":" + "c" == "a" + ":" + "b:c";
  }
}
