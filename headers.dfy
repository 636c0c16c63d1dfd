/**
 * The `Headers` object of the Fetch Standard (section 5.1), reduced to what the
 * handlers use: a header list of (name, value) pairs, in order and possibly with
 * repeated names, where names compare case-insensitively.
 *  - `delete(name)` throws a TypeError for a name that is not a valid header name,
 *    and otherwise removes every header whose name matches.
 *  - `set(name, value)` replaces the value of the first matching header and removes
 *    the other matching ones, or appends (name, value) when none matches.
 */
module FetchHeaders {
  import opened JsString

  datatype Header = Header(name: string, value: string)

  /** Header names are compared by their byte-lowercase form. */
  function Key(name: string): string
  {
    AsciiLower(name)
  }

  /** `host` is a valid header name, already in lower case. */
  lemma HostKey()
    ensures Key("host") == "host"
    ensures IsHeaderName("host")
  {
    var r := AsciiLower("host");
    assert forall k | 0 <= k < 4 :: r[k] == "host"[k];
  }

  /** A `tchar` of RFC 9110, section 5.6.2. */
  predicate IsTokenChar(c: char) {
    ('a' <= c <= 'z') || ('A' <= c <= 'Z') || ('0' <= c <= '9')
    || c == '!' || c == '#' || c == '$' || c == '%' || c == '&' || c == '\'' || c == '*'
    || c == '+' || c == '-' || c == '.' || c == '^' || c == '_' || c == '`' || c == '|' || c == '~'
  }

  /** A header name is a non-empty token. */
  predicate IsHeaderName(name: string) {
    |name| > 0 && forall k | 0 <= k < |name| :: IsTokenChar(name[k])
  }

  /** The values of the headers whose name matches `name`, in list order. */
  function Values(list: seq<Header>, name: string): (vs: seq<string>)
    ensures |vs| <= |list|
  {
    if list == [] then []
    else (if Key(list[0].name) == Key(name) then [list[0].value] else []) + Values(list[1..], name)
  }

  /** The headers whose name is not in `keys` (given in lower case), in list order. */
  function Without(list: seq<Header>, keys: set<string>): (r: seq<Header>)
    ensures |r| <= |list|
    ensures forall h | h in r :: h in list && Key(h.name) !in keys
    ensures forall h | h in list && Key(h.name) !in keys :: h in r
  {
    if list == [] then []
    else (if Key(list[0].name) in keys then [] else [list[0]]) + Without(list[1..], keys)
  }

  /** "Delete" a header name from a header list. */
  function Removed(list: seq<Header>, name: string): seq<Header>
  {
    Without(list, {Key(name)})
  }

  /** The "set" step for a list that contains `name`: the first match takes the value, later matches go. */
  function ReplaceFirst(list: seq<Header>, name: string, value: string): seq<Header>
  {
    if list == [] then []
    else if Key(list[0].name) == Key(name) then [Header(list[0].name, value)] + Removed(list[1..], name)
    else [list[0]] + ReplaceFirst(list[1..], name, value)
  }

  /** "Set" (name, value) in a header list. */
  function SetValue(list: seq<Header>, name: string, value: string): seq<Header>
  {
    if Values(list, name) != [] then ReplaceFirst(list, name, value) else list + [Header(name, value)]
  }

  lemma {:induction false} ValuesAppend(a: seq<Header>, b: seq<Header>, name: string)
    ensures Values(a + b, name) == Values(a, name) + Values(b, name)
  {
    if a != [] {
      TailOfAppend(a, b);
      ValuesAppend(a[1..], b, name);
    } else {
      assert a + b == b;
    }
  }

  /** Only the lower-case form of a name matters. */
  lemma {:induction false} ValuesByKey(list: seq<Header>, name: string, other: string)
    requires Key(name) == Key(other)
    ensures Values(list, name) == Values(list, other)
  {
    if list != [] {
      ValuesByKey(list[1..], name, other);
    }
  }

  lemma {:induction false} WithoutAppend(a: seq<Header>, b: seq<Header>, keys: set<string>)
    ensures Without(a + b, keys) == Without(a, keys) + Without(b, keys)
  {
    if a != [] {
      TailOfAppend(a, b);
      WithoutAppend(a[1..], b, keys);
    } else {
      assert a + b == b;
    }
  }

  lemma TailOfAppend(a: seq<Header>, b: seq<Header>)
    requires a != []
    ensures (a + b)[0] == a[0] && (a + b)[1..] == a[1..] + b
  {
  }

  /** After removing the names in `keys`, a name in `keys` has no value and any other name keeps its values. */
  lemma {:induction false} ValuesWithout(list: seq<Header>, keys: set<string>, name: string)
    ensures Values(Without(list, keys), name) == if Key(name) in keys then [] else Values(list, name)
  {
    if list != [] {
      ValuesWithout(list[1..], keys, name);
      var head := if Key(list[0].name) in keys then [] else [list[0]];
      ValuesAppend(head, Without(list[1..], keys), name);
    }
  }

  /** Removing two sets of names one after the other is removing their union. */
  lemma {:induction false} WithoutWithout(list: seq<Header>, a: set<string>, b: set<string>)
    ensures Without(Without(list, a), b) == Without(list, a + b)
  {
    if list != [] {
      WithoutWithout(list[1..], a, b);
      var head := if Key(list[0].name) in a then [] else [list[0]];
      WithoutAppend(head, Without(list[1..], a), b);
    }
  }

  /** Removing no names changes nothing. */
  lemma {:induction false} WithoutNothing(list: seq<Header>)
    ensures Without(list, {}) == list
  {
    if list != [] {
      WithoutNothing(list[1..]);
    }
  }

  lemma {:induction false} ValuesReplaceFirst(list: seq<Header>, name: string, value: string, other: string)
    ensures Values(ReplaceFirst(list, name, value), other)
         == if Key(other) != Key(name) then Values(list, other)
            else if Values(list, name) == [] then [] else [value]
  {
    if list != [] {
      var tail := list[1..];
      if Key(list[0].name) == Key(name) {
        ValuesAppend([Header(list[0].name, value)], Removed(tail, name), other);
        ValuesWithout(tail, {Key(name)}, other);
      } else {
        ValuesAppend([list[0]], ReplaceFirst(tail, name, value), other);
        ValuesReplaceFirst(tail, name, value, other);
      }
    }
  }

  lemma {:induction false} WithoutReplaceFirst(list: seq<Header>, name: string, value: string, keys: set<string>)
    requires Key(name) in keys
    ensures Without(ReplaceFirst(list, name, value), keys) == Without(list, keys)
  {
    if list != [] {
      var tail := list[1..];
      if Key(list[0].name) == Key(name) {
        WithoutAppend([Header(list[0].name, value)], Removed(tail, name), keys);
        WithoutWithout(tail, {Key(name)}, keys);
        assert {Key(name)} + keys == keys;
      } else {
        WithoutAppend([list[0]], ReplaceFirst(tail, name, value), keys);
        WithoutReplaceFirst(tail, name, value, keys);
      }
    }
  }

  /** After a set, the name has exactly the one value set; every other name keeps its values. */
  lemma ValuesSetValue(list: seq<Header>, name: string, value: string, other: string)
    ensures Values(SetValue(list, name, value), other)
         == if Key(other) == Key(name) then [value] else Values(list, other)
  {
    if Values(list, name) != [] {
      ValuesReplaceFirst(list, name, value, other);
    } else {
      ValuesAppend(list, [Header(name, value)], other);
      if Key(other) == Key(name) {
        ValuesByKey(list, name, other);
      }
    }
  }

  /** A set touches only the headers of its own name. */
  lemma WithoutSetValue(list: seq<Header>, name: string, value: string, keys: set<string>)
    requires Key(name) in keys
    ensures Without(SetValue(list, name, value), keys) == Without(list, keys)
  {
    if Values(list, name) != [] {
      WithoutReplaceFirst(list, name, value, keys);
    } else {
      WithoutAppend(list, [Header(name, value)], keys);
    }
  }

  /** The lower-case forms of some header names. */
  function Keys(names: seq<string>): set<string>
  {
    set n | n in names :: Key(n)
  }

  /** The lower-case names a sequence of sets writes. */
  function SetKeys(sets: seq<Header>): set<string>
  {
    set h | h in sets :: Key(h.name)
  }

  /** No two sets in the sequence write the same name. */
  predicate DistinctKeys(sets: seq<Header>) {
    forall i, j | 0 <= i < j < |sets| :: Key(sets[i].name) != Key(sets[j].name)
  }

  /** Deletes each name of `names` in turn. */
  function RemoveAll(list: seq<Header>, names: seq<string>): seq<Header>
  {
    if names == [] then list
    else Removed(RemoveAll(list, names[..|names| - 1]), names[|names| - 1])
  }

  /** Deleting names one by one keeps exactly the headers whose name is none of them, in order. */
  lemma {:induction false} RemoveAllWithout(list: seq<Header>, names: seq<string>)
    ensures RemoveAll(list, names) == Without(list, Keys(names))
  {
    if names == [] {
      WithoutNothing(list);
      assert Keys(names) == {};
    } else {
      var init, last := names[..|names| - 1], names[|names| - 1];
      RemoveAllWithout(list, init);
      WithoutWithout(list, Keys(init), {Key(last)});
      assert names == init + [last];
      assert Keys(names) == Keys(init) + {Key(last)};
    }
  }

  /** Sets each (name, value) of `sets` in turn. */
  function SetAll(list: seq<Header>, sets: seq<Header>): seq<Header>
  {
    if sets == [] then list
    else SetValue(SetAll(list, sets[..|sets| - 1]), sets[|sets| - 1].name, sets[|sets| - 1].value)
  }

  /** Two sets in a row. */
  lemma SetAllTwo(list: seq<Header>, a: Header, b: Header)
    ensures SetAll(list, [a, b]) == SetValue(SetValue(list, a.name, a.value), b.name, b.value)
  {
    assert [a, b][..1] == [a];
    assert [a][..0] == [];
    assert SetAll(list, [a]) == SetValue(list, a.name, a.value);
  }

  /** Three sets in a row. */
  lemma SetAllThree(list: seq<Header>, a: Header, b: Header, c: Header)
    ensures SetAll(list, [a, b, c])
         == SetValue(SetValue(SetValue(list, a.name, a.value), b.name, b.value), c.name, c.value)
  {
    assert [a, b, c][..2] == [a, b];
    assert [a, b][..1] == [a];
    assert [a][..0] == [];
    assert SetAll(list, [a]) == SetValue(list, a.name, a.value);
    assert SetAll(list, [a, b]) == SetValue(SetAll(list, [a]), b.name, b.value);
  }

  /** A name none of the sets writes keeps its values. */
  lemma {:induction false} SetAllOther(list: seq<Header>, sets: seq<Header>, name: string)
    requires Key(name) !in SetKeys(sets)
    ensures Values(SetAll(list, sets), name) == Values(list, name)
  {
    if sets != [] {
      var init, last := sets[..|sets| - 1], sets[|sets| - 1];
      assert last in sets;
      assert SetKeys(init) <= SetKeys(sets) by {
        assert forall h | h in init :: h in sets;
      }
      SetAllOther(list, init, name);
      ValuesSetValue(SetAll(list, init), last.name, last.value, name);
    }
  }

  /** Each name written by a sequence of sets with distinct names ends up with exactly its value. */
  lemma {:induction false} SetAllValue(list: seq<Header>, sets: seq<Header>, i: nat)
    requires DistinctKeys(sets) && i < |sets|
    ensures Values(SetAll(list, sets), sets[i].name) == [sets[i].value]
  {
    var init, last := sets[..|sets| - 1], sets[|sets| - 1];
    ValuesSetValue(SetAll(list, init), last.name, last.value, sets[i].name);
    if i < |sets| - 1 {
      assert DistinctKeys(init);
      SetAllValue(list, init, i);
    }
  }

  /** The sets leave alone every header whose name they do not write. */
  lemma {:induction false} SetAllWithout(list: seq<Header>, sets: seq<Header>, keys: set<string>)
    requires SetKeys(sets) <= keys
    ensures Without(SetAll(list, sets), keys) == Without(list, keys)
  {
    if sets != [] {
      var init, last := sets[..|sets| - 1], sets[|sets| - 1];
      assert last in sets;
      assert SetKeys(init) <= SetKeys(sets) by {
        assert forall h | h in init :: h in sets;
      }
      SetAllWithout(list, init, keys);
      WithoutSetValue(SetAll(list, init), last.name, last.value, keys);
    }
  }

  /**
   * The header transformation both handlers perform on a copy of the inbound headers:
   * delete each configured name, delete `host`, then apply the sets in order.
   */
  function Transformed(inbound: seq<Header>, removal: seq<string>, sets: seq<Header>): seq<Header>
  {
    SetAll(Removed(RemoveAll(inbound, removal), "host"), sets)
  }

  /** The names the transformation removes or writes. */
  function Touched(removal: seq<string>, sets: seq<Header>): set<string>
  {
    Keys(removal) + {"host"} + SetKeys(sets)
  }

  /**
   * What the transformation guarantees: every set name carries exactly its value; `host`
   * and the removed names are absent unless a later set writes them; every other header
   * passes through with its name, value and position among the others unchanged.
   */
  lemma TransformedSpec(inbound: seq<Header>, removal: seq<string>, sets: seq<Header>)
    requires DistinctKeys(sets)
    ensures forall i | 0 <= i < |sets| :: Values(Transformed(inbound, removal, sets), sets[i].name) == [sets[i].value]
    ensures forall n | Key(n) in Keys(removal) + {"host"} && Key(n) !in SetKeys(sets) ::
              Values(Transformed(inbound, removal, sets), n) == []
    ensures forall n | Key(n) !in Touched(removal, sets) ::
              Values(Transformed(inbound, removal, sets), n) == Values(inbound, n)
    ensures Without(Transformed(inbound, removal, sets), Touched(removal, sets))
         == Without(inbound, Touched(removal, sets))
  {
    var deleted := Removed(RemoveAll(inbound, removal), "host");
    var removedKeys := Keys(removal) + {"host"};
    HostKey();
    RemoveAllWithout(inbound, removal);
    WithoutWithout(inbound, Keys(removal), {"host"});
    assert deleted == Without(inbound, removedKeys);
    forall i | 0 <= i < |sets|
      ensures Values(Transformed(inbound, removal, sets), sets[i].name) == [sets[i].value]
    {
      SetAllValue(deleted, sets, i);
    }
    forall n | Key(n) !in SetKeys(sets)
      ensures Values(Transformed(inbound, removal, sets), n) == Values(Without(inbound, removedKeys), n)
    {
      SetAllOther(deleted, sets, n);
    }
    forall n
      ensures Values(Without(inbound, removedKeys), n) == if Key(n) in removedKeys then [] else Values(inbound, n)
    {
      ValuesWithout(inbound, removedKeys, n);
    }
    var touched := Touched(removal, sets);
    SetAllWithout(deleted, sets, touched);
    WithoutWithout(inbound, removedKeys, touched);
    assert removedKeys + touched == touched;
  }

  /** Each set of distinct names leaves exactly its own value under its name. */
  lemma TransformedSetValue(inbound: seq<Header>, removal: seq<string>, sets: seq<Header>, i: nat)
    requires DistinctKeys(sets) && i < |sets|
    ensures Values(Transformed(inbound, removal, sets), sets[i].name) == [sets[i].value]
  {
    TransformedSpec(inbound, removal, sets);
  }

  /** Deleted names, and `host`, are absent after the transformation unless a set writes them. */
  lemma TransformedRemoved(inbound: seq<Header>, removal: seq<string>, sets: seq<Header>)
    requires DistinctKeys(sets)
    ensures forall n | n in removal && Key(n) !in SetKeys(sets) :: Values(Transformed(inbound, removal, sets), n) == []
    ensures "host" !in SetKeys(sets) ==> Values(Transformed(inbound, removal, sets), "host") == []
  {
    TransformedSpec(inbound, removal, sets);
    HostKey();
    assert forall n | n in removal :: Key(n) in Keys(removal);
  }

  /** A `Headers` object: a header list updated in place. */
  class Headers {
    var list: seq<Header>

    /**
     * `new Headers(request.headers)`: `init` is the inbound headers as their iterator
     * yields them, with lower-case names, so appending the pairs in turn gives exactly
     * `init`. For other inputs the Fetch Standard's "append" would respell a repeated
     * name as its first occurrence; that case does not arise here.
     */
    constructor (init: seq<Header>)
      ensures list == init
    {
      list := init;
    }

    /** `headers.delete(name)`: `ok` is false exactly when it throws a TypeError, and then nothing changes. */
    method Delete(name: string) returns (ok: bool)
      modifies this
      ensures ok == IsHeaderName(name)
      ensures list == if ok then Removed(old(list), name) else old(list)
    {
      ok := IsHeaderName(name);
      if ok {
        list := Removed(list, name);
      }
    }

    /** `headers.set(name, value)`: `ok` is false exactly when it throws a TypeError, and then nothing changes. */
    method Set(name: string, value: string) returns (ok: bool)
      modifies this
      ensures ok == IsHeaderName(name)
      ensures list == if ok then SetValue(old(list), name, value) else old(list)
    {
      ok := IsHeaderName(name);
      if ok {
        list := SetValue(list, name, value);
      }
    }
  }
}
