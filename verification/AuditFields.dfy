/** Bounding what an audit record stores: long strings cut at every depth, and the cut columns named. */
module AuditFields {
  import opened Common

  datatype Json =
    | Text(text: string)
    | Object(fields: seq<Field>)
    | List(items: seq<Json>)
    | Plain(rendering: string)

  /** One entry of a mapping; mappings keep their insertion order. */
  datatype Field = Field(key: string, value: Json)

  // ---- The pure tree map ----

  function Shortened(s: string, bound: nat): string { s[..Min(|s|, bound)] }

  /** Every string leaf cut to the bound; keys, order and everything else as they are. */
  function Truncated(node: Json, bound: nat): Json {
    match node
    case Text(s) => Text(Shortened(s, bound))
    case Object(fields) =>
      Object(seq(|fields|, i requires 0 <= i < |fields| => Field(fields[i].key, Truncated(fields[i].value, bound))))
    case List(items) => List(seq(|items|, i requires 0 <= i < |items| => Truncated(items[i], bound)))
    case Plain(_) => node
  }

  predicate HasLongLeaf(node: Json, bound: nat) {
    match node
    case Text(s) => |s| > bound
    case Object(fields) => exists i :: 0 <= i < |fields| && HasLongLeaf(fields[i].value, bound)
    case List(items) => exists i :: 0 <= i < |items| && HasLongLeaf(items[i], bound)
    case Plain(_) => false
  }

  // ---- The walk, with the flag it sets on the way ----

  class JsonTruncation {
    const bound: nat
    var cut: bool

    constructor (bound: nat)
      ensures this.bound == bound && !cut
    {
      this.bound, cut := bound, false;
    }

    /** Rebuilds the tree and raises the flag at the first long leaf; an earlier cut is never forgotten. */
    method Walk(node: Json) returns (r: Json)
      modifies this`cut
      ensures r == Truncated(node, bound)
      ensures cut <==> old(cut) || HasLongLeaf(node, bound)
      decreases node
    {
      match node
      case Text(s) =>
        if |s| > bound {
          cut := true;
          return Text(s[..bound]);
        }
        return node;
      case Object(fields) =>
        var walked: seq<Field> := [];
        for i := 0 to |fields|
          invariant |walked| == i
          invariant forall j :: 0 <= j < i ==> walked[j] == Field(fields[j].key, Truncated(fields[j].value, bound))
          invariant cut <==> old(cut) || exists j :: 0 <= j < i && HasLongLeaf(fields[j].value, bound)
        {
          var value := Walk(fields[i].value);
          walked := walked + [Field(fields[i].key, value)];
        }
        return Object(walked);
      case List(items) =>
        var walked: seq<Json> := [];
        for i := 0 to |items|
          invariant |walked| == i
          invariant forall j :: 0 <= j < i ==> walked[j] == Truncated(items[j], bound)
          invariant cut <==> old(cut) || exists j :: 0 <= j < i && HasLongLeaf(items[j], bound)
        {
          var value := Walk(items[i]);
          walked := walked + [value];
        }
        return List(walked);
      case Plain(_) =>
        return node;
    }
  }

  // ---- What truncation means, leaf by leaf ----

  /** The subtree at a path of positions, if the path leads anywhere. */
  function At(node: Json, path: seq<nat>): Option<Json> {
    if path == [] then Some(node)
    else
      match node
      case Object(fields) => if path[0] < |fields| then At(fields[path[0]].value, path[1..]) else None
      case List(items) => if path[0] < |items| then At(items[path[0]], path[1..]) else None
      case _ => None
  }

  /** What two subtrees have in common when one is the truncation of the other: everything but long texts' tails. */
  predicate SameButShorter(original: Json, stored: Json, bound: nat) {
    match original
    case Text(s) => stored.Text? && stored.text <= s && |stored.text| == Min(|s|, bound)
    case Object(fields) =>
      stored.Object? && |stored.fields| == |fields|
      && forall i :: 0 <= i < |fields| ==> stored.fields[i].key == fields[i].key
    case List(items) => stored.List? && |stored.items| == |items|
    case Plain(_) => stored == original
  }

  /** At every path both trees have a node or neither has, of the same kind, with the same keys, cut only in texts. */
  lemma {:induction false} SameShapeEverywhere(node: Json, bound: nat, path: seq<nat>)
    ensures At(node, path).Some? <==> At(Truncated(node, bound), path).Some?
    ensures At(node, path).Some? ==>
      SameButShorter(At(node, path).value, At(Truncated(node, bound), path).value, bound)
    decreases |path|
  {
    if path != [] {
      match node
      case Object(fields) => if path[0] < |fields| { SameShapeEverywhere(fields[path[0]].value, bound, path[1..]); }
      case List(items) => if path[0] < |items| { SameShapeEverywhere(items[path[0]], bound, path[1..]); }
      case _ =>
    }
  }

  predicate LongLeafAt(node: Json, bound: nat, path: seq<nat>) {
    At(node, path).Some? && At(node, path).value.Text? && |At(node, path).value.text| > bound
  }

  /** The flag is raised exactly when some path leads to a text over the bound. */
  lemma {:induction false} LongLeafIffSomePath(node: Json, bound: nat)
    ensures HasLongLeaf(node, bound) <==> exists path :: LongLeafAt(node, bound, path)
    decreases node
  {
    match node
    case Text(s) =>
      if |s| > bound { assert LongLeafAt(node, bound, []); }
    case Object(fields) =>
      forall i | 0 <= i < |fields|
        ensures HasLongLeaf(fields[i].value, bound) <==> exists path :: LongLeafAt(fields[i].value, bound, path)
      {
        LongLeafIffSomePath(fields[i].value, bound);
      }
      if i: nat :| i < |fields| && HasLongLeaf(fields[i].value, bound) {
        var path :| LongLeafAt(fields[i].value, bound, path);
        assert ([i] + path)[1..] == path;
        assert LongLeafAt(node, bound, [i] + path);
      }
      if path :| LongLeafAt(node, bound, path) { assert LongLeafAt(fields[path[0]].value, bound, path[1..]); }
    case List(items) =>
      forall i | 0 <= i < |items|
        ensures HasLongLeaf(items[i], bound) <==> exists path :: LongLeafAt(items[i], bound, path)
      {
        LongLeafIffSomePath(items[i], bound);
      }
      if i: nat :| i < |items| && HasLongLeaf(items[i], bound) {
        var path :| LongLeafAt(items[i], bound, path);
        assert ([i] + path)[1..] == path;
        assert LongLeafAt(node, bound, [i] + path);
      }
      if path :| LongLeafAt(node, bound, path) { assert LongLeafAt(items[path[0]], bound, path[1..]); }
    case Plain(_) =>
  }

  /** A tree is changed exactly when it had a long leaf, and the result has none: a second pass changes nothing. */
  lemma {:induction false} TruncatedSettles(node: Json, bound: nat)
    ensures !HasLongLeaf(Truncated(node, bound), bound)
    ensures Truncated(node, bound) == node <==> !HasLongLeaf(node, bound)
    decreases node
  {
    match node
    case Object(fields) =>
      forall i | 0 <= i < |fields|
        ensures !HasLongLeaf(Truncated(fields[i].value, bound), bound)
          && (Truncated(fields[i].value, bound) == fields[i].value <==> !HasLongLeaf(fields[i].value, bound))
      {
        TruncatedSettles(fields[i].value, bound);
      }
      var after := Truncated(node, bound).fields;
      assert forall i :: 0 <= i < |fields| ==> (after[i] == fields[i] <==> !HasLongLeaf(fields[i].value, bound));
      if !HasLongLeaf(node, bound) { assert after == fields; }
    case List(items) =>
      forall i | 0 <= i < |items|
        ensures !HasLongLeaf(Truncated(items[i], bound), bound)
          && (Truncated(items[i], bound) == items[i] <==> !HasLongLeaf(items[i], bound))
      {
        TruncatedSettles(items[i], bound);
      }
      var after := Truncated(node, bound).items;
      assert forall i :: 0 <= i < |items| ==> (after[i] == items[i] <==> !HasLongLeaf(items[i], bound));
      if !HasLongLeaf(node, bound) { assert after == items; }
    case _ =>
  }

  lemma TruncatingTwice(node: Json, bound: nat)
    ensures Truncated(Truncated(node, bound), bound) == Truncated(node, bound)
  {
    TruncatedSettles(node, bound);
    TruncatedSettles(Truncated(node, bound), bound);
  }

  // ---- Names in order ----

  predicate Less(a: string, b: string) {
    if b == "" then false
    else if a == "" then true
    else a[0] < b[0] || (a[0] == b[0] && Less(a[1..], b[1..]))
  }

  lemma {:induction false} LessIsTotal(a: string, b: string)
    ensures Less(a, b) || a == b || Less(b, a)
    ensures !(Less(a, b) && Less(b, a)) && !Less(a, a)
  {
    if a != "" {
      LessIsTotal(a[1..], a[1..]);
      if b != "" {
        LessIsTotal(a[1..], b[1..]);
        if a[0] == b[0] && a[1..] == b[1..] { assert a == [a[0]] + a[1..] == b; }
      }
    }
  }

  lemma {:induction false} LessIsTransitive(a: string, b: string, c: string)
    requires Less(a, b) && Less(b, c)
    ensures Less(a, c)
  {
    if a != "" { if a[0] == b[0] == c[0] { LessIsTransitive(a[1..], b[1..], c[1..]); } }
  }

  predicate Increasing(names: seq<string>) {
    forall i, j :: 0 <= i < j < |names| ==> Less(names[i], names[j])
  }

  function Insert(name: string, names: seq<string>): seq<string> {
    if names == [] || Less(name, names[0]) then [name] + names else [names[0]] + Insert(name, names[1..])
  }

  function Sorted(names: seq<string>): seq<string> {
    if names == [] then [] else Insert(names[0], Sorted(names[1..]))
  }

  lemma {:induction false} InsertKeepsOrder(name: string, names: seq<string>)
    requires Increasing(names) && name !in names
    ensures Increasing(Insert(name, names)) && forall n :: n in Insert(name, names) <==> n == name || n in names
  {
    if names != [] {
      if Less(name, names[0]) {
        forall j | 0 <= j < |names| ensures Less(name, names[j]) {
          if j > 0 { LessIsTransitive(name, names[0], names[j]); }
        }
      } else {
        LessIsTotal(name, names[0]);
        InsertKeepsOrder(name, names[1..]);
        assert names == [names[0]] + names[1..];
        assert forall n :: n in names[1..] ==> Less(names[0], n);
      }
    }
  }

  predicate AllDifferent(names: seq<string>) { forall i, j :: 0 <= i < j < |names| ==> names[i] != names[j] }

  lemma {:induction false} SortedIsIncreasing(names: seq<string>)
    requires AllDifferent(names)
    ensures Increasing(Sorted(names)) && forall n :: n in Sorted(names) <==> n in names
  {
    if names != [] {
      SortedIsIncreasing(names[1..]);
      InsertKeepsOrder(names[0], Sorted(names[1..]));
      assert names == [names[0]] + names[1..];
    }
  }

  /** There is only one increasing list of given names. */
  lemma {:induction false} IncreasingIsUnique(a: seq<string>, b: seq<string>)
    requires Increasing(a) && Increasing(b) && forall n :: n in a <==> n in b
    ensures a == b
  {
    assert a != [] ==> a[0] in a;
    assert b != [] ==> b[0] in b;
    if a != [] && b != [] {
      FirstIsLeast(a, b);
      FirstIsLeast(b, a);
      LessIsTotal(a[0], b[0]);
      LessIsTotal(a[0], a[0]);
      assert a == [a[0]] + a[1..] && b == [b[0]] + b[1..];
      forall n ensures n in a[1..] <==> n in b[1..] {
        assert n in a <==> n in b;
      }
      IncreasingIsUnique(a[1..], b[1..]);
    }
  }

  lemma FirstIsLeast(a: seq<string>, b: seq<string>)
    requires Increasing(a) && a != [] && b != [] && b[0] in a
    ensures a[0] == b[0] || Less(a[0], b[0])
  {}

  /** The two names agree up to the k-th place, and there the first has the smaller character. */
  predicate SmallerAt(a: string, b: string, k: int) {
    0 <= k < |a| && k < |b| && a[..k] == b[..k] && a[k] < b[k]
  }

  /** The order of names: a name comes before its own continuations, and otherwise the first difference decides. */
  lemma {:induction false} LessMeans(a: string, b: string)
    ensures Less(a, b) <==> (a < b || exists k :: SmallerAt(a, b, k))
  {
    if a != "" && b != "" {
      LessMeans(a[1..], b[1..]);
      assert a == [a[0]] + a[1..] && b == [b[0]] + b[1..];
      if a[0] == b[0] {
        if k :| SmallerAt(a, b, k) {
          assert a[1..][..k - 1] == a[..k][1..] && b[1..][..k - 1] == b[..k][1..];
          assert SmallerAt(a[1..], b[1..], k - 1);
        }
        if k :| SmallerAt(a[1..], b[1..], k) {
          assert a[..k + 1] == [a[0]] + a[1..][..k] && b[..k + 1] == [b[0]] + b[1..][..k];
          assert SmallerAt(a, b, k + 1);
        }
      } else {
        if a[0] < b[0] { assert SmallerAt(a, b, 0); }
        forall k | SmallerAt(a, b, k) ensures a[0] < b[0] {
          if k > 0 { assert a[..k][0] == b[..k][0]; }
        }
      }
    }
  }

  // ---- One record's columns ----

  const JSON_FIELDS := {"diagnosis", "evidence", "decision", "policy_result"}
  const TEXT_FIELDS := {"previous_state", "new_state", "action", "action_result", "idempotency_key"}

  /** What is stored for a column. */
  function StoredValue(f: Field, bound: nat): Json {
    if f.key in JSON_FIELDS then Truncated(f.value, bound)
    else if f.key in TEXT_FIELDS && f.value.Text? then Text(Shortened(f.value.text, bound))
    else f.value
  }

  /** Whether a column lost anything: the stored value is not the one that was handed over. */
  predicate LostText(f: Field, bound: nat) { StoredValue(f, bound) != f.value }

  predicate DistinctKeys(columns: seq<Field>) {
    forall i, j :: 0 <= i < j < |columns| ==> columns[i].key != columns[j].key
  }

  ghost predicate NamesLost(columns: seq<Field>, names: seq<string>, bound: nat) {
    && Increasing(names)
    && forall n :: n in names <==> exists i :: 0 <= i < |columns| && columns[i].key == n && LostText(columns[i], bound)
  }

  /** The names reported do not depend on the order in which the columns were visited. */
  lemma NamesDoNotDependOnOrder(a: seq<Field>, b: seq<Field>, names: seq<string>, others: seq<string>, bound: nat)
    requires NamesLost(a, names, bound) && NamesLost(b, others, bound) && multiset(a) == multiset(b)
    ensures names == others
  {
    forall n ensures n in names <==> n in others {
      if n in names {
        var i :| 0 <= i < |a| && a[i].key == n && LostText(a[i], bound);
        assert a[i] in multiset(b);
      }
      if n in others {
        var i :| 0 <= i < |b| && b[i].key == n && LostText(b[i], bound);
        assert b[i] in multiset(a);
      }
    }
    IncreasingIsUnique(names, others);
  }

  method TruncateJson(value: Json, bound: nat) returns (shortened: Json, wasCut: bool)
    ensures shortened == Truncated(value, bound)
    ensures wasCut <==> shortened != value
  {
    var walk := new JsonTruncation(bound);
    shortened := walk.Walk(value);
    wasCut := walk.cut;
    TruncatedSettles(value, bound);
  }

  method TruncateText(value: Json, bound: nat) returns (shortened: Json, wasCut: bool)
    ensures shortened == if value.Text? then Text(Shortened(value.text, bound)) else value
    ensures wasCut <==> shortened != value
  {
    if value.Text? && |value.text| > bound { return Text(value.text[..bound]), true; }
    return value, false;
  }

  /** Column by column: four hold trees, cut at every leaf, five hold texts, cut as a whole; the rest is untouched. */
  predicate StoredByKind(masked: seq<Field>, prepared: seq<Field>, bound: nat) {
    && |prepared| == |masked|
    && forall i :: 0 <= i < |masked| ==>
         var name, value := masked[i].key, masked[i].value;
         && prepared[i].key == name
         && prepared[i].value ==
              if name in {"diagnosis", "evidence", "decision", "policy_result"} then Truncated(value, bound)
              else if name in {"previous_state", "new_state", "action", "action_result", "idempotency_key"}
                      && value.Text? && |value.text| > bound then Text(value.text[..bound])
              else value
  }

  /** The names of the columns that are not as they were handed over, in order. */
  ghost predicate NamesChanged(masked: seq<Field>, prepared: seq<Field>, names: seq<string>) {
    && |prepared| == |masked| && Increasing(names)
    && forall name ::
         name in names <==> exists i :: 0 <= i < |masked| && masked[i].key == name && prepared[i] != masked[i]
  }

  lemma PreparedMeaning(masked: seq<Field>, prepared: seq<Field>, bound: nat)
    requires |prepared| == |masked|
    requires forall i :: 0 <= i < |masked| ==> prepared[i] == Field(masked[i].key, StoredValue(masked[i], bound))
    ensures StoredByKind(masked, prepared, bound)
    ensures forall names :: NamesLost(masked, names, bound) ==> NamesChanged(masked, prepared, names)
  {
    hide Truncated, Increasing;
    forall i | 0 <= i < |masked| ensures prepared[i] != masked[i] <==> LostText(masked[i], bound) {
      assert masked[i] == Field(masked[i].key, masked[i].value);
    }
  }

  /** The masked columns as they are stored, and in alphabetical order the names of exactly those that were cut. */
  method Prepare(masked: seq<Field>, bound: nat) returns (prepared: seq<Field>, truncatedFields: Option<seq<string>>)
    requires DistinctKeys(masked)
    ensures |prepared| == |masked|
    ensures forall i :: 0 <= i < |masked| ==> prepared[i] == Field(masked[i].key, StoredValue(masked[i], bound))
    ensures truncatedFields.None? <==> prepared == masked
    ensures truncatedFields.Some? ==> NamesLost(masked, truncatedFields.value, bound)
    ensures StoredByKind(masked, prepared, bound)
    ensures truncatedFields.Some? ==> NamesChanged(masked, prepared, truncatedFields.value)
  {
    prepared := [];
    var truncated: seq<string> := [];
    for i := 0 to |masked|
      invariant |prepared| == i
      invariant forall j :: 0 <= j < i ==> prepared[j] == Field(masked[j].key, StoredValue(masked[j], bound))
      invariant forall n ::
        n in truncated <==> exists j :: 0 <= j < i && masked[j].key == n && LostText(masked[j], bound)
      invariant AllDifferent(truncated)
    {
      var f := masked[i];
      var value, wasCut := f.value, false;
      if f.key in JSON_FIELDS {
        value, wasCut := TruncateJson(f.value, bound);
      } else if f.key in TEXT_FIELDS {
        value, wasCut := TruncateText(f.value, bound);
      }
      prepared := prepared + [Field(f.key, value)];
      assert f.key !in truncated by { assert forall j :: 0 <= j < i ==> masked[j].key != f.key; }
      if wasCut { truncated := truncated + [f.key]; }
    }
    SortedIsIncreasing(truncated);
    PreparedMeaning(masked, prepared, bound);
    hide StoredByKind, NamesChanged;
    if truncated == [] {
      truncatedFields := None;
      assert forall i :: 0 <= i < |masked| && LostText(masked[i], bound) ==> masked[i].key in truncated;
    } else {
      truncatedFields := Some(Sorted(truncated));
      assert truncated[0] in truncated;
      var j :| 0 <= j < |masked| && masked[j].key == truncated[0] && LostText(masked[j], bound);
      assert prepared[j] != masked[j];
    }
  }
}
