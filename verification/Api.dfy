/**
 The part of the Kubernetes API that the controller relies on, as a stated contract: a store of binding objects,
 three calls that may be refused or whose reply may be lost, owner references and the label selector.
 */
module Api {
  import opened Subjects

  datatype Scope = Namespaced | ClusterWide

  /** Where an object lives; cluster-wide objects have the empty namespace. */
  datatype Key = Key(scope: Scope, ns: string, name: string)

  datatype RoleRef = RoleRef(apiGroup: string, kind: string, name: string)

  datatype OwnerRef = OwnerRef(apiVersion: string, kind: string, name: string, uid: string, controller: bool)

  datatype Object = Object(
    owners: seq<OwnerRef>,
    labels: map<string, string>,
    annotations: map<string, string>,
    subjects: seq<Subject>,
    roleRef: RoleRef)

  type Store = map<Key, Object>

  /**
   `upsert`: Update creates a missing object. `fixedRoleRef`: Update refuses to change a stored roleRef. `checksLabels`:
   Update and Create refuse an object with an illegal label value.
   */
  datatype Rules = Rules(upsert: bool, fixedRoleRef: bool, checksLabels: bool)

  /** What befalls one call: it is served, it fails without effect, or it takes effect and the reply is lost. */
  datatype Verdict = Serve | Fail | Lose

  /** `Missing` is an error for which kubeerrors.IsNotFound holds, `Refused` is any other error. */
  datatype Reply = Done | Missing | Refused

  function Served(st: Store, after: Store, reply: Reply, v: Verdict): (Store, Reply) {
    match v
    case Serve => (after, reply)
    case Fail => (st, Refused)
    case Lose => (after, Refused)
  }

  function Update(rules: Rules, st: Store, k: Key, o: Object, v: Verdict): (Store, Reply) {
    if k !in st && !rules.upsert then Served(st, st, Missing, v)
    else if !Accepts(rules, o) || (k in st && rules.fixedRoleRef && st[k].roleRef != o.roleRef) then (st, Refused)
    else Served(st, st[k := o], Done, v)
  }

  function Create(rules: Rules, st: Store, k: Key, o: Object, v: Verdict): (Store, Reply) {
    if k in st || !Accepts(rules, o) then (st, Refused) else Served(st, st[k := o], Done, v)
  }

  function Delete(st: Store, k: Key, v: Verdict): (Store, Reply) {
    if k !in st then Served(st, st, Missing, v) else Served(st, st - {k}, Done, v)
  }

  /** The uid of the first owner reference marked as controller; IsControlledBy compares it with the owner's. */
  predicate ControlledBy(owners: seq<OwnerRef>, uid: string) {
    owners != [] && if owners[0].controller then owners[0].uid == uid else ControlledBy(owners[1..], uid)
  }

  /** The selector `owner = name`. */
  predicate Selected(o: Object, name: string) {
    "owner" in o.labels && o.labels["owner"] == name
  }

  predicate Alphanumeric(c: char) {
    'a' <= c <= 'z' || 'A' <= c <= 'Z' || '0' <= c <= '9'
  }

  /** A selector can be built only for a legal label value; a config name may be longer than one. */
  predicate LegalLabelValue(v: string) {
    && |v| <= 63
    && (v != "" ==> Alphanumeric(v[0]) && Alphanumeric(v[|v| - 1]))
    && forall i :: 0 <= i < |v| ==> Alphanumeric(v[i]) || v[i] in "-_."
  }

  predicate Accepts(rules: Rules, o: Object) {
    rules.checksLabels ==> forall l :: l in o.labels ==> LegalLabelValue(o.labels[l])
  }

  /** What the server does to the one object of a call, and what it replies. */
  lemma CallsMean(rules: Rules, st: Store, k: Key, o: Object, v: Verdict)
    ensures var refuses := !Accepts(rules, o) || (k in st && rules.fixedRoleRef && st[k].roleRef != o.roleRef);
            var reply := if v == Serve then Done else Refused;
            && (k in st || rules.upsert ==>
                  Update(rules, st, k, o, v) ==
                  if refuses then (st, Refused) else (if v == Fail then st else st[k := o], reply))
            && (k !in st && !rules.upsert ==>
                  Update(rules, st, k, o, v) == (st, if v == Serve then Missing else Refused))
            && (Create(rules, st, k, o, v) ==
                if k in st || refuses then (st, Refused) else (if v == Fail then st else st[k := o], reply))
            && (k in st ==> Delete(st, k, v) == (if v == Fail then st else st - {k}, reply))
            && (k !in st ==> Delete(st, k, v) == (st, if v == Serve then Missing else Refused))
  {
  }

  /** Only the first owner that is a controller counts. */
  lemma {:induction false} ControlledByIff(owners: seq<OwnerRef>, uid: string)
    ensures ControlledBy(owners, uid) <==>
            exists i :: 0 <= i < |owners| && owners[i].controller && owners[i].uid == uid
                        && forall j :: 0 <= j < i ==> !owners[j].controller
  {
    if owners != [] && !owners[0].controller {
      var rest := owners[1..];
      ControlledByIff(rest, uid);
      if i :| 0 <= i < |rest| && rest[i].controller && rest[i].uid == uid
              && forall j :: 0 <= j < i ==> !rest[j].controller {
        assert owners[i + 1] == rest[i];
        assert forall j :: 0 < j < i + 1 ==> owners[j] == rest[j - 1];
      }
      if i :| 0 <= i < |owners| && owners[i].controller && owners[i].uid == uid
              && forall j :: 0 <= j < i ==> !owners[j].controller {
        assert rest[i - 1] == owners[i];
        assert forall j :: 0 <= j < i - 1 ==> rest[j] == owners[j + 1];
      }
    }
  }

  lemma SelectedIff(o: Object, name: string)
    ensures Selected(o, name) <==> ("owner", name) in o.labels.Items
  {
  }

  /** The limits of a label value: 63 characters, letters and digits at both ends, and "-_." besides in the middle. */
  lemma LabelLimits(n: nat, c: char, d: char)
    ensures LegalLabelValue(seq(n, _ => 'a')) <==> n <= 63
    ensures LegalLabelValue([c]) <==> Letter(c)
    ensures LegalLabelValue(['x', d, 'y']) <==> Letter(d) || d == '-' || d == '_' || d == '.'
    ensures LegalLabelValue(['x', c]) <==> Letter(c)
    ensures LegalLabelValue([c, 'x']) <==> Letter(c)
  {
    var v := seq(n, _ => 'a');
    assert n <= 63 ==> forall i :: 0 <= i < |v| ==> v[i] == 'a';
    assert ['x', d, 'y'][1] == d && ['x', c][1] == c && [c, 'x'][0] == c && [c][0] == c;
  }

  /** A letter or a digit, by its code. */
  predicate Letter(c: char) {
    48 <= c as int <= 57 || 65 <= c as int <= 90 || 97 <= c as int <= 122
  }

  /** Equality of two stores at one key. */
  predicate AgreeAt(a: Store, b: Store, k: Key) {
    (k in a <==> k in b) && (k in a ==> a[k] == b[k])
  }

  lemma SameStore(a: Store, b: Store)
    requires forall k :: AgreeAt(a, b, k)
    ensures a == b
  {
    forall k
      ensures k in a <==> k in b
      ensures k in a ==> a[k] == b[k]
    {
      assert AgreeAt(a, b, k);
    }
  }

  /** Each call reads and writes one key only. */
  lemma CallsAreLocal(rules: Rules, st: Store, other: Store, k: Key, o: Object, v: Verdict, k': Key)
    requires AgreeAt(st, other, k)
    ensures Update(rules, st, k, o, v).1 == Update(rules, other, k, o, v).1
    ensures Create(rules, st, k, o, v).1 == Create(rules, other, k, o, v).1
    ensures Delete(st, k, v).1 == Delete(other, k, v).1
    ensures AgreeAt(Update(rules, st, k, o, v).0, Update(rules, other, k, o, v).0, k)
    ensures AgreeAt(Create(rules, st, k, o, v).0, Create(rules, other, k, o, v).0, k)
    ensures AgreeAt(Delete(st, k, v).0, Delete(other, k, v).0, k)
    ensures k' != k ==> AgreeAt(Update(rules, st, k, o, v).0, st, k')
    ensures k' != k ==> AgreeAt(Create(rules, st, k, o, v).0, st, k')
    ensures k' != k ==> AgreeAt(Delete(st, k, v).0, st, k')
  {
  }

  class Server {
    var store: Store
    const rules: Rules

    constructor (rules: Rules)
      ensures store == map[] && this.rules == rules
    {
      store := map[];
      this.rules := rules;
    }

    method UpdateCall(k: Key, o: Object, v: Verdict) returns (reply: Reply)
      modifies this
      ensures (store, reply) == Update(rules, old(store), k, o, v)
    {
      var (after, r) := Update(rules, store, k, o, v);
      store, reply := after, r;
    }

    method CreateCall(k: Key, o: Object, v: Verdict) returns (reply: Reply)
      modifies this
      ensures (store, reply) == Create(rules, old(store), k, o, v)
    {
      var (after, r) := Create(rules, store, k, o, v);
      store, reply := after, r;
    }

    method DeleteCall(k: Key, v: Verdict) returns (reply: Reply)
      modifies this
      ensures (store, reply) == Delete(old(store), k, v)
    {
      var (after, r) := Delete(store, k, v);
      store, reply := after, r;
    }
  }
}
