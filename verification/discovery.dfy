/** The option normalisation that `find` performs before it hands the options
    to the discovery backend (index.js:106-115): an array in `groups` or
    `extraIPs` is joined into one comma-separated string with
    `reduce((x, y) => x + ',' + y)`, in place on the caller's options object. */
module Discovery {
  import opened Js
  import opened Optional

  /** What an options field can hold: nothing, a string, or an array of strings. */
  datatype Field = Absent | Text(s: string) | List(items: seq<string>)

  /** A snapshot of a discovery options object. */
  datatype OptionsValue = OptionsValue(showLocalSources: Option<bool>, groups: Field, extraIPs: Field)

  /** The caller's options object, which `find` updates in place. */
  class Options {
    var showLocalSources: Option<bool>
    var groups: Field
    var extraIPs: Field

    constructor (showLocalSources: Option<bool>, groups: Field, extraIPs: Field)
      ensures Value() == OptionsValue(showLocalSources, groups, extraIPs)
    {
      this.showLocalSources := showLocalSources;
      this.groups := groups;
      this.extraIPs := extraIPs;
    }

    function Value(): OptionsValue
      reads this
    {
      OptionsValue(showLocalSources, groups, extraIPs)
    }
  }

  // ---------------------------------------------------------------------------
  // Joining with commas

  /** `xs.reduce((x, y) => x + ',' + y)` on a non-empty array: a left fold that
      starts from the first element. */
  function JoinFold(xs: seq<string>): string
    requires |xs| > 0
  {
    if |xs| == 1 then xs[0] else JoinFold(xs[..|xs| - 1]) + "," + xs[|xs| - 1]
  }

  /** An independent definition of the comma-joined string, folding from the right. */
  function Joined(xs: seq<string>): string
    requires |xs| > 0
  {
    if |xs| == 1 then xs[0] else xs[0] + "," + Joined(xs[1..])
  }

  /** The reduce itself, as the array method runs it: the accumulator starts
      at the first element and each later element is appended after a comma.
      An empty array has nothing to start from and throws. */
  method ReduceJoin(xs: seq<string>) returns (r: Completion<string>)
    ensures |xs| == 0 ==> r == Throw(TypeError(ReduceOfEmptyArray))
    ensures |xs| > 0 ==> r == Normal(Joined(xs))
  {
    if |xs| == 0 {
      return Throw(TypeError(ReduceOfEmptyArray));
    }
    var acc := xs[0];
    var k := 1;
    while k < |xs|
      invariant 1 <= k <= |xs|
      invariant acc == JoinFold(xs[..k])
    {
      assert xs[..k + 1][..k] == xs[..k];
      acc := acc + "," + xs[k];
      k := k + 1;
    }
    assert xs[..k] == xs;
    FoldIsJoined(xs);
    return Normal(acc);
  }

  /** Appending one element to the right-fold definition. */
  lemma {:induction false} JoinedSnoc(xs: seq<string>, y: string)
    requires |xs| > 0
    ensures Joined(xs + [y]) == Joined(xs) + "," + y
  {
    if |xs| == 1 {
      assert (xs + [y])[1..] == [y];
    } else {
      assert (xs + [y])[1..] == xs[1..] + [y];
      JoinedSnoc(xs[1..], y);
    }
  }

  /** The left fold that reduce performs and the right fold agree. */
  lemma {:induction false} FoldIsJoined(xs: seq<string>)
    requires |xs| > 0
    ensures JoinFold(xs) == Joined(xs)
  {
    if |xs| > 1 {
      var init := xs[..|xs| - 1];
      FoldIsJoined(init);
      JoinedSnoc(init, xs[|xs| - 1]);
      assert init + [xs[|xs| - 1]] == xs;
    }
  }

  /** Total length of the elements. */
  function TotalLength(xs: seq<string>): nat {
    if xs == [] then 0 else |xs[0]| + TotalLength(xs[1..])
  }

  /** The joined string holds every character of every element plus one comma
      between each two neighbours. */
  lemma {:induction false} JoinedLength(xs: seq<string>)
    requires |xs| > 0
    ensures |Joined(xs)| == TotalLength(xs) + |xs| - 1
  {
    if |xs| > 1 {
      JoinedLength(xs[1..]);
    }
  }

  /** A one-element array comes out unchanged. */
  lemma JoinedSingle(s: string)
    ensures Joined([s]) == s
  {
  }

  /** The inverse of Joined: the pieces of a string between its commas. */
  function Split(s: string): (r: seq<string>)
    ensures |r| > 0
  {
    if s == [] then [""]
    else
      var rest := Split(s[1..]);
      if s[0] == ',' then [""] + rest else [[s[0]] + rest[0]] + rest[1..]
  }

  predicate NoComma(x: string) {
    forall i :: 0 <= i < |x| ==> x[i] != ','
  }

  lemma {:induction false} SplitComma(x: string, t: string)
    requires NoComma(x)
    ensures Split(x + "," + t) == [x] + Split(t)
    ensures Split(x) == [x]
  {
    if x != [] {
      assert (x + "," + t)[1..] == x[1..] + "," + t;
      SplitComma(x[1..], t);
      assert [x[0]] + x[1..] == x;
    }
  }

  /** Splitting undoes the join when no element contains a comma: the backend
      sees exactly the groups (or addresses) of the array, in order. */
  lemma {:induction false} SplitJoined(xs: seq<string>)
    requires |xs| > 0
    requires forall i :: 0 <= i < |xs| ==> NoComma(xs[i])
    ensures Split(Joined(xs)) == xs
  {
    SplitComma(xs[0], "");
    if |xs| > 1 {
      SplitJoined(xs[1..]);
      SplitComma(xs[0], Joined(xs[1..]));
    }
  }

  /** Joining undoes the split, for every string. */
  lemma {:induction false} JoinedSplit(s: string)
    ensures Joined(Split(s)) == s
  {
    if s != [] {
      var rest := Split(s[1..]);
      JoinedSplit(s[1..]);
      if s[0] == ',' {
        assert ([""] + rest)[1..] == rest;
      } else {
        var r := [[s[0]] + rest[0]] + rest[1..];
        if |rest| > 1 {
          assert r[1..] == rest[1..];
        }
        assert Joined(r) == [s[0]] + Joined(rest);
      }
    }
  }

  // ---------------------------------------------------------------------------
  // Normalising the options

  /** One field: an array is joined, an empty array throws, anything else stays. */
  function NormaliseField(f: Field): (r: Completion<Field>)
    ensures r.Normal? ==> !r.value.List?
    ensures r.Throw? <==> f == List([])
    ensures !f.List? ==> r == Normal(f)
    ensures f.List? && |f.items| > 0 ==> r == Normal(Text(Joined(f.items)))
  {
    match f
    case List(xs) =>
      if |xs| == 0 then Throw(TypeError(ReduceOfEmptyArray)) else Normal(Text(Joined(xs)))
    case _ => Normal(f)
  }

  /** The state after normalisation and the error it threw, if any. */
  datatype Normalised = Normalised(after: OptionsValue, error: Option<JsError>)

  /** `groups` first, then `extraIPs`; a throw stops the pass, so an empty
      `extraIPs` array leaves `groups` already rewritten. */
  function Normalise(o: OptionsValue): (r: Normalised)
    ensures r.after.showLocalSources == o.showLocalSources
    ensures r.error.Some? <==> o.groups == List([]) || o.extraIPs == List([])
    ensures r.error.None? ==> !r.after.groups.List? && !r.after.extraIPs.List?
  {
    match NormaliseField(o.groups)
    case Throw(e) => Normalised(o, Some(e))
    case Normal(g) =>
      var o1 := o.(groups := g);
      match NormaliseField(o.extraIPs)
      case Throw(e) => Normalised(o1, Some(e))
      case Normal(x) => Normalised(o1.(extraIPs := x), None)
  }

  /** What `find` hands to the backend: `addon.find()` with no arguments, or
      `addon.find.apply(null, args)` whose first argument is the normalised options. */
  datatype Dispatch = Direct | Apply(options: OptionsValue, argc: nat)

  /** `find(...args)` (index.js:106-115). A missing or nullish first argument
      throws on reading `.groups`. */
  method Find(args: seq<Options?>) returns (r: Completion<Dispatch>)
    modifies if |args| > 0 && args[0] != null then {args[0]} else {}
    ensures |args| == 0 ==> r == Normal(Direct)
    ensures |args| > 0 && args[0] == null ==> r == Throw(TypeError(ReadPropertyOfNullish))
    ensures |args| > 0 && args[0] != null ==>
      var n := Normalise(old(args[0].Value()));
      && args[0].Value() == n.after
      && r == (if n.error.Some? then Throw(n.error.value) else Normal(Apply(n.after, |args|)))
  {
    if |args| == 0 {
      return Normal(Direct);
    }
    var o := args[0];
    if o == null {
      return Throw(TypeError(ReadPropertyOfNullish));
    }
    if o.groups.List? {
      var joined := ReduceJoin(o.groups.items);
      if joined.Throw? {
        return Throw(joined.error);
      }
      o.groups := Text(joined.value);
    }
    if o.extraIPs.List? {
      var joined := ReduceJoin(o.extraIPs.items);
      if joined.Throw? {
        return Throw(joined.error);
      }
      o.extraIPs := Text(joined.value);
    }
    return Normal(Apply(o.Value(), |args|));
  }

  // ---------------------------------------------------------------------------
  // Properties of the normalisation

  /** It fails exactly when one of the two fields is an empty array. */
  lemma NormaliseFails(o: OptionsValue)
    ensures Normalise(o).error.Some? <==> o.groups == List([]) || o.extraIPs == List([])
    ensures Normalise(o).error.Some? ==> Normalise(o).error.value == TypeError(ReduceOfEmptyArray)
  {
  }

  /** An empty `groups` array throws before anything is written; an empty
      `extraIPs` array throws after `groups` has been rewritten. */
  lemma NormalisePartial(o: OptionsValue)
    ensures o.groups == List([]) ==> Normalise(o).after == o
    ensures o.groups != List([]) && o.extraIPs == List([]) ==>
      Normalise(o).after == o.(groups := NormaliseField(o.groups).value)
  {
  }

  /** A successful pass leaves no array behind, joins each array field,
      and leaves every other field as it was. */
  lemma NormaliseResult(o: OptionsValue)
    requires Normalise(o).error.None?
    ensures var a := Normalise(o).after;
      && !a.groups.List? && !a.extraIPs.List?
      && a.showLocalSources == o.showLocalSources
      && (o.groups.List? ==> a.groups == Text(Joined(o.groups.items)))
      && (!o.groups.List? ==> a.groups == o.groups)
      && (o.extraIPs.List? ==> a.extraIPs == Text(Joined(o.extraIPs.items)))
      && (!o.extraIPs.List? ==> a.extraIPs == o.extraIPs)
  {
  }

  /** `showLocalSources` is never touched, whether or not the pass throws. */
  lemma NormaliseKeepsOtherFields(o: OptionsValue)
    ensures Normalise(o).after.showLocalSources == o.showLocalSources
  {
  }

  /** The two fields are normalised independently: the new `groups` depends
      only on the old `groups`, and on success the new `extraIPs` only on the
      old `extraIPs`. */
  lemma NormaliseIndependent(o: OptionsValue, p: OptionsValue)
    requires Normalise(o).error.None? && Normalise(p).error.None?
    ensures o.groups == p.groups ==> Normalise(o).after.groups == Normalise(p).after.groups
    ensures o.extraIPs == p.extraIPs ==> Normalise(o).after.extraIPs == Normalise(p).after.extraIPs
  {
  }

  /** A second pass over a successfully normalised object changes nothing. */
  lemma NormaliseIdempotent(o: OptionsValue)
    requires Normalise(o).error.None?
    ensures Normalise(Normalise(o).after) == Normalised(Normalise(o).after, None)
  {
  }

  /** An array of groups gives the backend the same options as the literal
      comma-joined string, so `["a", "b"]` filters like `"a,b"`. */
  lemma ListFiltersLikeString(o: OptionsValue, xs: seq<string>)
    requires |xs| > 0
    ensures Normalise(o.(groups := List(xs))) == Normalise(o.(groups := Text(Joined(xs))))
  {
  }

  lemma TwoGroupsExample()
    ensures Joined(["a", "b"]) == "a,b"
  {
  }
}
