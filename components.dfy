/**
  The set of open windows (src/app/mods/components.rs). A component is
  known here by its name; what its `show` leaves in the `is_open` flag is an
  input of each frame.
*/
module Components {

  /** `set_open`: the key is in the set exactly when `isOpen`; other keys are untouched. */
  function SetOpen(open: set<string>, key: string, isOpen: bool): (r: set<string>)
    ensures key in r <==> isOpen
    ensures forall k :: k != key ==> (k in r <==> k in open)
  {
    if isOpen then (if key !in open then open + {key} else open) else open - {key}
  }

  /** Setting the same flag twice is setting it once. */
  lemma {:induction false} SetOpenIdempotent(open: set<string>, key: string, isOpen: bool)
    ensures SetOpen(SetOpen(open, key, isOpen), key, isOpen) == SetOpen(open, key, isOpen)
  {
  }

  /** No later component has the same name as component `a`, among the first `i`. */
  ghost predicate LastBefore(names: seq<string>, a: nat, i: nat)
    requires a < |names|
  {
    forall j :: a < j < i && j < |names| ==> names[j] != names[a]
  }

  class Components {
    var names: seq<string>
    var open: set<string>

    /** `Components::from_components`: no window open. */
    constructor FromComponents(components: seq<string>)
      ensures names == components && open == {}
    {
      names := components;
      open := {};
    }

    /** `Components::open`. */
    method Open(key: string, isOpen: bool)
      modifies this`open
      ensures open == SetOpen(old(open), key, isOpen)
    {
      if isOpen {
        if key !in open {
          open := open + {key};
        }
      } else {
        open := open - {key};
      }
    }

    /**
      `Components::windows`: every component is shown with its current flag
      and its membership is set to the flag `show` leaves (`shown[i]`). When
      two components share a name the later one decides.
    */
    method Windows(shown: seq<bool>)
      requires |shown| == |names|
      modifies this`open
      ensures forall a :: 0 <= a < |names| && LastBefore(names, a, |names|) ==> (names[a] in open <==> shown[a])
      ensures forall k :: k !in names ==> (k in open <==> k in old(open))
    {
      for i := 0 to |names|
        invariant forall a :: 0 <= a < i && LastBefore(names, a, i) ==> (names[a] in open <==> shown[a])
        invariant forall k :: k !in names[..i] ==> (k in open <==> k in old(open))
      {
        var isOpen := names[i] in open;
        isOpen := shown[i];
        open := SetOpen(open, names[i], isOpen);
        assert names[..i + 1] == names[..i] + [names[i]];
      }
      assert names[..|names|] == names;
    }
  }
}
