/**
 * The code-keyed registries a promotion builds when it is constructed: the
 * configured list is folded from left to right into a fresh map, each entry
 * stored under its own code, so that a later entry with the same code
 * overwrites an earlier one.
 */
module Registry {

  /** True when entry `i` is the last entry of `entries` whose code is `k`. */
  ghost predicate IsLastWithCode<T>(entries: seq<T>, code: T -> string, k: string, i: int)
  {
    0 <= i < |entries| && code(entries[i]) == k &&
    forall j :: i < j < |entries| ==> code(entries[j]) != k
  }

  /**
   * Builds the registry of `entries` keyed by `code`. Every configured code is
   * a key, nothing else is, and each key maps to an entry carrying it
   * (the last one: BuildLastWins).
   */
  function Build<T>(entries: seq<T>, code: T -> string): (r: map<string, T>)
    ensures forall k :: k in r <==> exists i :: 0 <= i < |entries| && code(entries[i]) == k
    ensures forall k :: k in r ==> code(r[k]) == k
  {
    if |entries| == 0 then map[]
    else
      var last := entries[|entries| - 1];
      Build(entries[..|entries| - 1], code)[code(last) := last]
  }

  /** Appending an entry overwrites whatever was registered under its code and leaves the other codes alone. */
  lemma BuildSnoc<T>(entries: seq<T>, e: T, code: T -> string)
    ensures code(e) in Build(entries + [e], code) && Build(entries + [e], code)[code(e)] == e
    ensures forall k :: k != code(e) ==>
      (k in Build(entries + [e], code) <==> k in Build(entries, code)) &&
      (k in Build(entries, code) ==> Build(entries + [e], code)[k] == Build(entries, code)[k])
  {
  }

  /** A code resolves to the last configured entry that carries it: a later duplicate wins. */
  lemma {:induction false} BuildLastWins<T>(entries: seq<T>, code: T -> string, k: string, i: int)
    requires IsLastWithCode(entries, code, k, i)
    ensures k in Build(entries, code) && Build(entries, code)[k] == entries[i]
  {
    var n := |entries|;
    if i == n - 1 {
      BuildSnoc(entries[..n - 1], entries[n - 1], code);
      assert entries[..n - 1] + [entries[n - 1]] == entries;
    } else {
      var front := entries[..n - 1];
      assert IsLastWithCode(front, code, k, i);
      BuildLastWins(front, code, k, i);
      BuildSnoc(front, entries[n - 1], code);
      assert front + [entries[n - 1]] == entries;
    }
  }

  /** Entries configured after a code's last occurrence do not change what that code resolves to. */
  lemma {:induction false} BuildIgnoresLaterCodes<T>(entries: seq<T>, rest: seq<T>, code: T -> string, k: string)
    requires k in Build(entries, code)
    requires forall j :: 0 <= j < |rest| ==> code(rest[j]) != k
    ensures k in Build(entries + rest, code)
    ensures Build(entries + rest, code)[k] == Build(entries, code)[k]
    decreases |rest|
  {
    if |rest| > 0 {
      var front := rest[..|rest| - 1];
      assert entries + rest == (entries + front) + [rest[|rest| - 1]];
      BuildIgnoresLaterCodes(entries, front, code, k);
      BuildSnoc(entries + front, rest[|rest| - 1], code);
    } else {
      assert entries + rest == entries;
    }
  }
}
