/** The deep-link declarations the tool is given: for each activity, a
    dictionary from deep-link URI to the four intent-filter flags. A Python
    dictionary is modelled by its items in insertion order. A Python dict's
    keys are distinct; the model does not require it, and lookup takes the
    first item with the key. */
module Manifest {

  /** The four intent-filter properties an App Link needs, in the order the
      auditor checks them. */
  datatype Flag = AutoVerify | ViewAction | BrowsableCategory | DefaultCategory

  const FlagOrder: seq<Flag> := [AutoVerify, ViewAction, BrowsableCategory, DefaultCategory]

  datatype Flags = Flags(
    autoverify: bool,
    includesViewAction: bool,
    includesBrowsableCategory: bool,
    includesDefaultCategory: bool)

  function Has(flags: Flags, f: Flag): bool {
    match f
    case AutoVerify => flags.autoverify
    case ViewAction => flags.includesViewAction
    case BrowsableCategory => flags.includesBrowsableCategory
    case DefaultCategory => flags.includesDefaultCategory
  }

  predicate AllFlags(flags: Flags) {
    flags.autoverify && flags.includesViewAction
    && flags.includesBrowsableCategory && flags.includesDefaultCategory
  }

  /** Deep link -> flags, for one activity. */
  type Handlers = seq<(string, Flags)>

  /** Activity name -> its handlers, in the order the caller supplies them. */
  type DeepLinks = seq<(string, Handlers)>

  /** A dictionary's `keys()`, in insertion order. */
  function Keys<V>(items: seq<(string, V)>): (keys: seq<string>)
    ensures |keys| == |items|
    ensures forall i :: 0 <= i < |items| ==> keys[i] == items[i].0
  {
    if items == [] then [] else [items[0].0] + Keys(items[1..])
  }

  /** `handlers[key]`. */
  function FlagsOf(handlers: Handlers, key: string): (flags: Flags)
    requires key in Keys(handlers)
    ensures exists i :: 0 <= i < |handlers| && handlers[i] == (key, flags)
  {
    if handlers[0].0 == key then handlers[0].1
    else
      assert key in Keys(handlers[1..]);
      var flags := FlagsOf(handlers[1..], key);
      var i :| 0 <= i < |handlers[1..]| && handlers[1..][i] == (key, flags);
      assert handlers[i + 1] == (key, flags);
      flags
  }

  /** The flag lookup the auditor uses agrees with the flag list it walks:
      all four flags are set exactly when each flag of `FlagOrder` is. */
  lemma AllFlagsIff(flags: Flags)
    ensures AllFlags(flags) <==> forall i :: 0 <= i < |FlagOrder| ==> Has(flags, FlagOrder[i])
  {
    if forall i :: 0 <= i < |FlagOrder| ==> Has(flags, FlagOrder[i]) {
      assert Has(flags, FlagOrder[0]) && Has(flags, FlagOrder[1]);
      assert Has(flags, FlagOrder[2]) && Has(flags, FlagOrder[3]);
    }
  }
}
