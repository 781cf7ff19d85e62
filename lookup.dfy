/** Searching and filtering the configuration's lists by name: the linear searches with
    an early exit, the name-to-parameter resolution and the delete filters that the
    command builder and the store operations share. */
module Lookup {
  import opened Base
  import opened Setup

  /** The names of the parameters, in list order. */
  function ParameterNames(ps: seq<Parameter>): (names: seq<string>)
    ensures |names| == |ps|
    ensures forall i :: 0 <= i < |ps| ==> names[i] == ps[i].name
    decreases |ps|
  {
    if ps == [] then [] else ParameterNames(ps[..|ps| - 1]) + [ps[|ps| - 1].name]
  }

  /** The names of the presets, in list order. */
  function PresetNames(ps: seq<Preset>): (names: seq<string>)
    ensures |names| == |ps|
    ensures forall i :: 0 <= i < |ps| ==> names[i] == ps[i].name
    decreases |ps|
  {
    if ps == [] then [] else PresetNames(ps[..|ps| - 1]) + [ps[|ps| - 1].name]
  }

  /** The position of the first parameter carrying exactly `name`, or -1. */
  function ParameterIndex(ps: seq<Parameter>, name: string): (i: int)
    ensures -1 <= i < |ps|
    ensures i == -1 <==> forall k :: 0 <= k < |ps| ==> ps[k].name != name
    ensures 0 <= i ==> ps[i].name == name
    ensures forall k :: 0 <= k < i ==> ps[k].name != name
    decreases |ps|
  {
    if ps == [] then -1
    else if ps[0].name == name then 0
    else
      var j := ParameterIndex(ps[1..], name);
      if j == -1 then -1 else j + 1
  }

  /** The position of the first preset carrying exactly `name`, or -1. */
  function PresetIndex(ps: seq<Preset>, name: string): (i: int)
    ensures -1 <= i < |ps|
    ensures i == -1 <==> forall k :: 0 <= k < |ps| ==> ps[k].name != name
    ensures 0 <= i ==> ps[i].name == name
    ensures forall k :: 0 <= k < i ==> ps[k].name != name
    decreases |ps|
  {
    if ps == [] then -1
    else if ps[0].name == name then 0
    else
      var j := PresetIndex(ps[1..], name);
      if j == -1 then -1 else j + 1
  }

  /** The parameter a name stands for: the first one carrying it (see FirstNamedAt). */
  function FirstNamed(ps: seq<Parameter>, name: string): (r: Option<Parameter>)
    ensures r.None? <==> forall k :: 0 <= k < |ps| ==> ps[k].name != name
    ensures r.Some? ==> r.value.name == name
    decreases |ps|
  {
    if ps == [] then None
    else if ps[0].name == name then Some(ps[0])
    else
      var r := FirstNamed(ps[1..], name);
      assert r.None? ==> forall k :: 0 <= k < |ps| ==> ps[k].name != name by {
        if r.None? {
          forall k | 0 < k < |ps| ensures ps[k].name != name {
            assert ps[k] == ps[1..][k - 1];
          }
        }
      }
      r
  }

  /** The first parameter carrying a name is the one FirstNamed picks. */
  lemma {:induction false} FirstNamedAt(ps: seq<Parameter>, name: string, k: nat)
    requires k < |ps| && ps[k].name == name
    requires forall j :: 0 <= j < k ==> ps[j].name != name
    ensures FirstNamed(ps, name) == Some(ps[k])
    decreases k
  {
    if k > 0 {
      FirstNamedAt(ps[1..], name, k - 1);
    }
  }

  /** The preset a name stands for: the first one carrying it (see FirstPresetNamedAt). */
  function FirstPresetNamed(ps: seq<Preset>, name: string): (r: Option<Preset>)
    ensures r.None? <==> forall k :: 0 <= k < |ps| ==> ps[k].name != name
    ensures r.Some? ==> r.value.name == name
    decreases |ps|
  {
    if ps == [] then None
    else if ps[0].name == name then Some(ps[0])
    else
      var r := FirstPresetNamed(ps[1..], name);
      assert r.None? ==> forall k :: 0 <= k < |ps| ==> ps[k].name != name by {
        if r.None? {
          forall k | 0 < k < |ps| ensures ps[k].name != name {
            assert ps[k] == ps[1..][k - 1];
          }
        }
      }
      r
  }

  /** The first preset carrying a name is the one FirstPresetNamed picks. */
  lemma {:induction false} FirstPresetNamedAt(ps: seq<Preset>, name: string, k: nat)
    requires k < |ps| && ps[k].name == name
    requires forall j :: 0 <= j < k ==> ps[j].name != name
    ensures FirstPresetNamed(ps, name) == Some(ps[k])
    decreases k
  {
    if k > 0 {
      FirstPresetNamedAt(ps[1..], name, k - 1);
    }
  }

  /** FirstNamed picks the parameter at ParameterIndex. */
  lemma FirstNamedAtIndex(ps: seq<Parameter>, name: string)
    ensures FirstNamed(ps, name) == if ParameterIndex(ps, name) == -1 then None else Some(ps[ParameterIndex(ps, name)])
  {
    if ParameterIndex(ps, name) != -1 {
      FirstNamedAt(ps, name, ParameterIndex(ps, name));
    }
  }

  /** FirstPresetNamed picks the preset at PresetIndex. */
  lemma FirstPresetNamedAtIndex(ps: seq<Preset>, name: string)
    ensures FirstPresetNamed(ps, name) == if PresetIndex(ps, name) == -1 then None else Some(ps[PresetIndex(ps, name)])
  {
    if PresetIndex(ps, name) != -1 {
      FirstPresetNamedAt(ps, name, PresetIndex(ps, name));
    }
  }

  /** Names resolved against a parameter list, in the order given: each name becomes
      the first parameter carrying it, and names no parameter carries are dropped. */
  function ResolveNames(names: seq<string>, ps: seq<Parameter>): (r: seq<Parameter>)
    ensures |r| <= |names|
    decreases |names|
  {
    if names == [] then []
    else
      var init := ResolveNames(names[..|names| - 1], ps);
      match FirstNamed(ps, names[|names| - 1])
      case None => init
      case Some(p) => init + [p]
  }

  /** Appending a name appends its parameter, if there is one. */
  lemma ResolveSnoc(names: seq<string>, n: string, ps: seq<Parameter>)
    ensures FirstNamed(ps, n).None? ==> ResolveNames(names + [n], ps) == ResolveNames(names, ps)
    ensures FirstNamed(ps, n).Some? ==>
              ResolveNames(names + [n], ps) == ResolveNames(names, ps) + [FirstNamed(ps, n).value]
  {
    assert (names + [n])[..|names|] == names;
  }

  /** The step of a loop over the names, when no parameter carries the next one. */
  lemma ResolveStepSkipped(names: seq<string>, i: nat, ps: seq<Parameter>)
    requires i < |names| && FirstNamed(ps, names[i]).None?
    ensures ResolveNames(names[..i + 1], ps) == ResolveNames(names[..i], ps)
  {
    assert names[..i + 1] == names[..i] + [names[i]];
    ResolveSnoc(names[..i], names[i], ps);
  }

  /** The step of a loop over the names, when the first parameter carrying the next
      one is at position `j`. */
  lemma ResolveStepFound(names: seq<string>, i: nat, ps: seq<Parameter>, j: nat)
    requires i < |names| && j < |ps| && ps[j].name == names[i]
    requires forall k :: 0 <= k < j ==> ps[k].name != names[i]
    ensures ResolveNames(names[..i + 1], ps) == ResolveNames(names[..i], ps) + [ps[j]]
  {
    FirstNamedAt(ps, names[i], j);
    assert names[..i + 1][..i] == names[..i];
  }

  /** The parameter a name stands for is one of the list's own elements. */
  lemma {:induction false} FirstNamedIsElement(ps: seq<Parameter>, name: string)
    requires FirstNamed(ps, name).Some?
    ensures FirstNamed(ps, name).value in ps
    decreases |ps|
  {
    if ps[0].name != name {
      FirstNamedIsElement(ps[1..], name);
    }
  }

  /** Resolution never invents a parameter: every entry is an element of the list. */
  lemma {:induction false} ResolvedAreElements(names: seq<string>, ps: seq<Parameter>)
    ensures forall i :: 0 <= i < |ResolveNames(names, ps)| ==> ResolveNames(names, ps)[i] in ps
    decreases |names|
  {
    if names != [] {
      var init := names[..|names| - 1];
      ResolvedAreElements(init, ps);
      var n := names[|names| - 1];
      if FirstNamed(ps, n).Some? {
        FirstNamedIsElement(ps, n);
      }
    }
  }

  /** The names that some parameter carries, in the order given. */
  function KnownNames(names: seq<string>, ps: seq<Parameter>): seq<string>
    decreases |names|
  {
    if names == [] then []
    else
      var init := KnownNames(names[..|names| - 1], ps);
      if names[|names| - 1] in ParameterNames(ps) then init + [names[|names| - 1]] else init
  }

  /** Resolving keeps exactly the known names, in order. */
  lemma {:induction false} ResolvedNamesAreKnownNames(names: seq<string>, ps: seq<Parameter>)
    ensures ParameterNames(ResolveNames(names, ps)) == KnownNames(names, ps)
    decreases |names|
  {
    if names != [] {
      ResolvedNamesAreKnownNames(names[..|names| - 1], ps);
    }
  }

  /** Resolution works name by name, so it distributes over concatenation. */
  lemma {:induction false} ResolveAppend(a: seq<string>, b: seq<string>, ps: seq<Parameter>)
    ensures ResolveNames(a + b, ps) == ResolveNames(a, ps) + ResolveNames(b, ps)
    decreases |b|
  {
    if b == [] {
      assert a + b == a;
    } else {
      var b' := b[..|b| - 1];
      var n := b[|b| - 1];
      ResolveAppend(a, b', ps);
      assert a + b == (a + b') + [n];
      assert b == b' + [n];
      ResolveSnoc(a + b', n, ps);
      ResolveSnoc(b', n, ps);
      var ra, rb' := ResolveNames(a, ps), ResolveNames(b', ps);
      assert ResolveNames(a + b', ps) == ra + rb';
      match FirstNamed(ps, n)
      case None =>
        assert ResolveNames(a + b, ps) == ra + rb';
        assert ResolveNames(b, ps) == rb';
      case Some(p) =>
        assert ResolveNames(a + b, ps) == (ra + rb') + [p];
        assert ResolveNames(b, ps) == rb' + [p];
        assert (ra + rb') + [p] == ra + (rb' + [p]);
    }
  }

  /** A name no parameter carries is skipped wherever it stands. */
  lemma ResolveSkipsUnknown(a: seq<string>, n: string, b: seq<string>, ps: seq<Parameter>)
    requires n !in ParameterNames(ps)
    ensures ResolveNames(a + [n] + b, ps) == ResolveNames(a + b, ps)
  {
    ResolveAppend(a + [n], b, ps);
    ResolveAppend(a, [n], ps);
    ResolveAppend(a, b, ps);
    assert ResolveNames([n], ps) == [] by {
      assert [n][..0] == [];
    }
  }

  /** When every name is known, the k-th result is the first parameter carrying the
      k-th name, even if later parameters carry the same name. */
  lemma {:induction false} ResolveKnownNames(names: seq<string>, ps: seq<Parameter>, k: nat)
    requires forall i :: 0 <= i < |names| ==> names[i] in ParameterNames(ps)
    requires k < |names|
    ensures |ResolveNames(names, ps)| == |names|
    ensures FirstNamed(ps, names[k]) == Some(ResolveNames(names, ps)[k])
    decreases |names|
  {
    var init := names[..|names| - 1];
    if k < |names| - 1 {
      ResolveKnownNames(init, ps, k);
    } else if |init| > 0 {
      ResolveKnownNames(init, ps, 0);
    }
  }

  /** The elements whose key is not among `names`, in their original order: the
      survivors of a multi-delete. */
  function Without<T>(xs: seq<T>, key: T -> string, names: set<string>): (r: seq<T>)
    ensures |r| <= |xs|
    ensures forall i :: 0 <= i < |r| ==> key(r[i]) !in names
    decreases |xs|
  {
    if xs == [] then []
    else
      var init := Without(xs[..|xs| - 1], key, names);
      if key(xs[|xs| - 1]) in names then init else init + [xs[|xs| - 1]]
  }

  /** An element survives exactly when it was there and its key was not selected. */
  lemma {:induction false} WithoutMembers<T>(xs: seq<T>, key: T -> string, names: set<string>, x: T)
    ensures x in Without(xs, key, names) <==> x in xs && key(x) !in names
    decreases |xs|
  {
    if xs != [] {
      var xs' := xs[..|xs| - 1];
      WithoutMembers(xs', key, names, x);
      assert xs == xs' + [xs[|xs| - 1]];
    }
  }

  /** The filter works element by element, so it keeps the relative order. */
  lemma {:induction false} WithoutAppend<T>(a: seq<T>, b: seq<T>, key: T -> string, names: set<string>)
    ensures Without(a + b, key, names) == Without(a, key, names) + Without(b, key, names)
    decreases |b|
  {
    if b == [] {
      assert a + b == a;
    } else {
      var b' := b[..|b| - 1];
      WithoutAppend(a, b', key, names);
      assert (a + b)[..|a + b| - 1] == a + b';
    }
  }

  /** Filtering again by the same names removes nothing more. */
  lemma {:induction false} WithoutIdempotent<T>(xs: seq<T>, key: T -> string, names: set<string>)
    ensures Without(Without(xs, key, names), key, names) == Without(xs, key, names)
    decreases |xs|
  {
    if xs != [] {
      var xs' := xs[..|xs| - 1];
      WithoutIdempotent(xs', key, names);
      var x := xs[|xs| - 1];
      if key(x) !in names {
        WithoutAppend(Without(xs', key, names), [x], key, names);
        assert [x][..0] == [];
      }
    }
  }

  /** Selecting no name keeps every element. */
  lemma {:induction false} WithoutNothing<T>(xs: seq<T>, key: T -> string)
    ensures Without(xs, key, {}) == xs
    decreases |xs|
  {
    if xs != [] {
      WithoutNothing(xs[..|xs| - 1], key);
    }
  }

  /** Selecting only a name that no element carries keeps every element. */
  lemma {:induction false} WithoutNoCarrier<T>(xs: seq<T>, key: T -> string, n: string)
    requires forall i :: 0 <= i < |xs| ==> key(xs[i]) != n
    ensures Without(xs, key, {n}) == xs
    decreases |xs|
  {
    if xs != [] {
      WithoutNoCarrier(xs[..|xs| - 1], key, n);
    }
  }

  /** Filtering out a name only the element at `i` carries cuts that element out. */
  lemma {:induction false} WithoutOnlyCarrier<T>(xs: seq<T>, key: T -> string, n: string, i: nat)
    requires i < |xs| && key(xs[i]) == n
    requires forall k :: 0 <= k < |xs| && k != i ==> key(xs[k]) != n
    ensures Without(xs, key, {n}) == xs[..i] + xs[i + 1..]
    decreases |xs|
  {
    var init, last := xs[..|xs| - 1], xs[|xs| - 1];
    if i == |xs| - 1 {
      WithoutNoCarrier(init, key, n);
    } else {
      WithoutOnlyCarrier(init, key, n, i);
      assert init[..i] == xs[..i];
      assert init[i + 1..] + [last] == xs[i + 1..];
    }
  }

  /** Selecting a name that no element carries changes nothing. */
  lemma {:induction false} WithoutIgnoresUnknown<T>(xs: seq<T>, key: T -> string, names: set<string>, n: string)
    requires forall i :: 0 <= i < |xs| ==> key(xs[i]) != n
    ensures Without(xs, key, names + {n}) == Without(xs, key, names)
    decreases |xs|
  {
    if xs != [] {
      WithoutIgnoresUnknown(xs[..|xs| - 1], key, names, n);
    }
  }

  /** The selected names as a set: the `toDelete` lookup table of a multi-delete. */
  function NameSet(names: seq<string>): (r: set<string>)
    ensures forall n :: n in r <==> n in names
  {
    set n | n in names
  }

  /** How many elements carry a selected key. */
  function CountIn<T>(xs: seq<T>, key: T -> string, names: set<string>): nat
    decreases |xs|
  {
    if xs == [] then 0
    else CountIn(xs[..|xs| - 1], key, names) + (if key(xs[|xs| - 1]) in names then 1 else 0)
  }

  /** Counting works piece by piece. */
  lemma {:induction false} CountInAppend<T>(a: seq<T>, b: seq<T>, key: T -> string, names: set<string>)
    ensures CountIn(a + b, key, names) == CountIn(a, key, names) + CountIn(b, key, names)
    decreases |b|
  {
    if b == [] {
      assert a + b == a;
    } else {
      CountInAppend(a, b[..|b| - 1], key, names);
      assert (a + b)[..|a + b| - 1] == a + b[..|b| - 1];
    }
  }

  /** The filter removes exactly the elements carrying a selected key. */
  lemma {:induction false} WithoutCount<T>(xs: seq<T>, key: T -> string, names: set<string>)
    ensures |Without(xs, key, names)| + CountIn(xs, key, names) == |xs|
    decreases |xs|
  {
    if xs != [] {
      WithoutCount(xs[..|xs| - 1], key, names);
    }
  }

  /** No name occurs twice. */
  predicate UniqueNames(names: seq<string>) {
    forall i, j :: 0 <= i < j < |names| ==> names[i] != names[j]
  }
}
