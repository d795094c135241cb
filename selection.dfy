/** The check both `/analyze` handlers make on the six form slots before any
    chart is built: every slot must be filled and no name may repeat. */
module Selection {
  import opened Seqs

  /** A form field as `request.form.get` returns it: absent, or a string. */
  datatype Option<T> = None | Some(value: T)

  /** What a handler returns: the rendered page, or the "select exactly six
      different Pokémon" rejection (sent with status 400). */
  datatype Outcome<T> = Rendered(page: T) | Rejected

  /** The number of form slots, `pokemon-1` through `pokemon-6`. */
  const SlotCount := 6

  /** The handlers reject when some slot is absent or when the set of slot
      values has fewer than six elements; this accepts exactly the rest. */
  predicate Accepts(slots: seq<Option<string>>): (ok: bool)
    ensures ok ==> SlotCount <= |slots|
    ensures ok ==> forall i :: 0 <= i < |slots| ==> slots[i].Some?
  {
    ElemSetCard(slots);
    !(None in slots || |ElemSet(slots)| < SlotCount)
  }

  /** Every slot holds a name. */
  predicate AllFilled(slots: seq<Option<string>>)
  {
    forall i :: 0 <= i < |slots| ==> slots[i].Some?
  }

  /** Over the six slots the handlers read, the cardinality test is the same as
      asking that every slot be filled and no two slots hold the same name. */
  lemma AcceptsIffFilledAndDistinct(slots: seq<Option<string>>)
    requires |slots| == SlotCount
    ensures Accepts(slots) <==> AllFilled(slots) && Distinct(slots)
  {
    ElemSetCard(slots);
    if AllFilled(slots) {
      assert None !in slots by {
        forall i | 0 <= i < |slots| ensures slots[i] != None {
          assert slots[i].Some?;
        }
      }
    } else {
      var i :| 0 <= i < |slots| && !slots[i].Some?;
      assert slots[i] == None;
    }
  }

  /** The names in the filled slots, in slot order (the `selected_pokemon` list
      once the check has passed). */
  function SelectedNames(slots: seq<Option<string>>): (names: seq<string>)
    requires AllFilled(slots)
    ensures |names| == |slots|
    ensures forall i :: 0 <= i < |slots| ==> slots[i] == Some(names[i])
    ensures Distinct(slots) ==> Distinct(names)
  {
    seq(|slots|, i requires 0 <= i < |slots| => slots[i].value)
  }
}
