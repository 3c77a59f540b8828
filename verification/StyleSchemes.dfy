/** Style schemes: checking their parents when they are loaded, and looking up styles
    along the parent chain with a cache. */
module StyleSchemes {
  import opened Wrappers
  import opened Sequences

  /** A style; None stands for an attribute that is not used. */
  datatype Style = Style(background: Option<string>, foreground: Option<string>, lineBackground: Option<string>, flags: set<string>)

  /** What a scheme file defines. */
  datatype SchemeData = SchemeData(styles: map<string, Style>, colors: map<string, string>)

  class Scheme {
    const id: string
    const parentId: Option<string>
    const data: SchemeData
    var parent: Scheme?
    var styleCache: map<string, Option<Style>>

    constructor (id: string, parentId: Option<string>, data: SchemeData)
      ensures this.id == id && this.parentId == parentId && this.data == data
      ensures parent == null && styleCache == map[]
    {
      this.id, this.parentId, this.data := id, parentId, data;
      parent, styleCache := null, map[];
    }
  }

  type Schemes = map<string, Scheme>

  ghost predicate Keyed(hash: Schemes) {
    forall id :: id in hash ==> hash[id].id == id
  }

  // ----- parent chains -----

  /** From the scheme the parents lead to one without a parent in at most `n` steps. */
  predicate EndsIn(hash: Schemes, id: string, n: nat)
    decreases n
  {
    id in hash &&
    (hash[id].parentId.None? || (n > 0 && EndsIn(hash, hash[id].parentId.value, n - 1)))
  }

  /** The parent chain of the scheme is complete and has no cycle. */
  ghost predicate Good(hash: Schemes, id: string) {
    exists n: nat :: EndsIn(hash, id, n)
  }

  /** Each scheme of the list is the parent of the one before it. */
  ghost predicate Chained(hash: Schemes, chain: seq<Scheme>) {
    && chain != []
    && (forall i :: 0 <= i < |chain| ==> chain[i].id in hash && hash[chain[i].id] == chain[i])
    && (forall i {:trigger chain[i]} :: 0 <= i < |chain| - 1 ==> chain[i].parentId == Some(chain[i + 1].id))
  }

  lemma {:induction false} EndedChain(hash: Schemes, chain: seq<Scheme>, i: nat)
    requires Chained(hash, chain) && chain[|chain| - 1].parentId.None? && i < |chain|
    ensures EndsIn(hash, chain[i].id, |chain| - 1 - i)
    decreases |chain| - i
  {
    if i < |chain| - 1 { EndedChain(hash, chain, i + 1); }
  }

  /** A chain whose last parent is unknown or on the chain. */
  ghost predicate Broken(hash: Schemes, chain: seq<Scheme>) {
    chain != [] &&
    var p := chain[|chain| - 1].parentId;
    p.Some? && (p.value !in hash || hash[p.value] in chain)
  }

  lemma {:induction false} BrokenChain(hash: Schemes, chain: seq<Scheme>, i: nat, n: nat)
    requires Keyed(hash) && Chained(hash, chain) && Broken(hash, chain) && i < |chain|
    ensures !EndsIn(hash, chain[i].id, n)
    decreases n
  {
    if n > 0 && EndsIn(hash, chain[i].id, n) {
      if i < |chain| - 1 {
        BrokenChain(hash, chain, i + 1, n - 1);
      } else if chain[i].parentId.value in hash {
        var j :| 0 <= j < |chain| && chain[j] == hash[chain[i].parentId.value];
        BrokenChain(hash, chain, j, n - 1);
      }
    }
  }

  /** Removing schemes that are not good changes nothing for the others. */
  lemma {:induction false} GoodStays(all: Schemes, hash: Schemes, id: string, n: nat)
    requires (forall k :: k in hash ==> k in all && hash[k] == all[k])
    requires (forall k :: k in all && Good(all, k) ==> k in hash)
    ensures EndsIn(hash, id, n) <==> EndsIn(all, id, n)
    decreases n
  {
    if EndsIn(all, id, n) { assert Good(all, id); }
    if id in hash && all[id].parentId.Some? && n > 0 { GoodStays(all, hash, all[id].parentId.value, n - 1); }
  }

  // ----- build_reference_chain -----

  /** Every scheme of the chain but the last has the next one as its parent. */
  ghost predicate ParentsSet(chain: seq<Scheme>)
    reads chain`parent
  {
    forall i {:trigger chain[i]} :: 0 <= i < |chain| - 1 ==> chain[i].parent == chain[i + 1]
  }

  /** The parent is the scheme that the parent id names. */
  ghost predicate ParentSet(hash: Schemes, s: Scheme)
    reads s`parent
  {
    s.parentId.Some? && s.parentId.value in hash && s.parent == hash[s.parentId.value]
  }

  ghost predicate Distinct(chain: seq<Scheme>) {
    forall i, j :: 0 <= i < j < |chain| ==> chain[i] != chain[j]
  }

  /** `build_reference_chain`: the chain from the scheme upwards, and whether it ends at a
      scheme without a parent.  Parents are set on the way. */
  method BuildReferenceChain(start: Scheme, hash: Schemes) returns (chain: seq<Scheme>, valid: bool)
    requires Keyed(hash) && start.id in hash && hash[start.id] == start
    modifies hash.Values`parent
    ensures Chained(hash, chain) && chain[0] == start && Distinct(chain)
    ensures if valid then chain[|chain| - 1].parentId.None? else Broken(hash, chain)
    ensures ParentsSet(chain)
    ensures forall k :: k in hash && hash[k].parent != old(hash[k].parent) ==> ParentSet(hash, hash[k])
    ensures chain[|chain| - 1].parent == old(chain[|chain| - 1].parent)
  {
    hide Chained, Broken, Elements, Distinct, ParentsSet;
    var scheme := start;
    chain := [start];
    StartChain(hash, start);
    while true
      invariant chain != [] && Chained(hash, chain) && chain[0] == start && chain[|chain| - 1] == scheme && Distinct(chain)
      invariant ParentsSet(chain)
      invariant forall k :: k in hash && hash[k].parent != old(hash[k].parent) ==> hash[k] in chain && hash[k] != scheme && ParentSet(hash, hash[k])
      invariant scheme.id in hash && hash[scheme.id] == scheme && scheme.parent == old(scheme.parent)
      decreases |hash.Values| - |Elements(chain)|
    {
      if scheme.parentId.None? {
        return chain, true;
      }
      IsBroken(hash, chain);
      if scheme.parentId.value !in hash {
        return chain, false;
      }
      var parent := hash[scheme.parentId.value];
      if parent in chain {
        return chain, false;
      }
      LongerChain(hash, chain, parent);
      SetParent(scheme, parent, chain);
      chain := chain + [parent];
      scheme := parent;
    }
  }

  /** `_gtk_source_style_scheme_set_parent` for the last scheme of the chain. */
  method SetParent(scheme: Scheme, parent: Scheme, ghost chain: seq<Scheme>)
    requires chain != [] && chain[|chain| - 1] == scheme && Distinct(chain) && ParentsSet(chain)
    modifies scheme`parent
    ensures ParentsSet(chain + [parent]) && scheme.parent == parent
  {
    scheme.parent := parent;
  }

  lemma StartChain(hash: Schemes, start: Scheme)
    requires start.id in hash && hash[start.id] == start
    ensures Chained(hash, [start]) && Distinct([start]) && ParentsSet([start])
  {
  }

  lemma IsBroken(hash: Schemes, chain: seq<Scheme>)
    requires chain != [] && chain[|chain| - 1].parentId.Some?
    ensures chain[|chain| - 1].parentId.value !in hash ==> Broken(hash, chain)
    ensures chain[|chain| - 1].parentId.value in hash && hash[chain[|chain| - 1].parentId.value] in chain ==> Broken(hash, chain)
  {
  }

  lemma LongerChain(hash: Schemes, chain: seq<Scheme>, s: Scheme)
    requires Keyed(hash) && Chained(hash, chain) && Distinct(chain)
    requires chain[|chain| - 1].parentId == Some(s.id) && s.id in hash && hash[s.id] == s && s !in chain
    ensures Chained(hash, chain + [s]) && Distinct(chain + [s])
    ensures |Elements(chain)| < |Elements(chain + [s])| <= |hash.Values|
    ensures chain[|chain| - 1] in hash.Values
  {
    forall i | 0 <= i < |chain| ensures chain[i] in hash.Values {
      assert hash[chain[i].id] == chain[i];
    }
    assert s == hash[s.id];
    MoreElements(hash, chain, s);
  }

  ghost function Elements(chain: seq<Scheme>): set<Scheme> {
    set s | s in chain
  }

  lemma MoreElements(hash: Schemes, chain: seq<Scheme>, s: Scheme)
    requires (forall i :: 0 <= i < |chain| ==> chain[i] in hash.Values) && s in hash.Values && s !in chain
    ensures |Elements(chain + [s])| == |Elements(chain)| + 1 && |Elements(chain + [s])| <= |hash.Values|
  {
    assert Elements(chain + [s]) == Elements(chain) + {s};
    SubsetSize(Elements(chain + [s]), hash.Values);
  }

  // ----- check_parents -----

  /** The list without some ids. */
  function Without(ids: seq<string>, gone: set<string>): seq<string> {
    if ids == [] then [] else (if ids[0] in gone then [] else [ids[0]]) + Without(ids[1..], gone)
  }

  predicate Unique(ids: seq<string>) {
    forall i, j :: 0 <= i < j < |ids| ==> ids[i] != ids[j]
  }

  /** `ids_list_remove` */
  function Remove(ids: seq<string>, id: string): seq<string> {
    if ids == [] then [] else if ids[0] == id then ids[1..] else [ids[0]] + Remove(ids[1..], id)
  }

  lemma {:induction false} InWithout(ids: seq<string>, gone: set<string>, id: string)
    ensures id in Without(ids, gone) <==> id in ids && id !in gone
    decreases ids
  {
    if ids != [] { InWithout(ids[1..], gone, id); }
  }

  lemma {:induction false} RemoveIsWithout(ids: seq<string>, gone: set<string>, id: string)
    requires Unique(ids)
    ensures Remove(Without(ids, gone), id) == Without(ids, gone + {id})
    decreases ids
  {
    if ids != [] {
      RemoveIsWithout(ids[1..], gone, id);
      var rest := Without(ids[1..], gone);
      if ids[0] == id {
        assert id !in ids[1..];
        NotInWithout(ids[1..], gone, id);
      }
      RemoveFront(ids[0], rest, id);
      assert [] + rest == rest && [] + Without(ids[1..], gone + {id}) == Without(ids[1..], gone + {id});
    }
  }

  lemma {:induction false} NotInWithout(ids: seq<string>, gone: set<string>, id: string)
    requires id !in ids
    ensures Without(ids, gone + {id}) == Without(ids, gone) && Remove(Without(ids, gone), id) == Without(ids, gone)
    decreases ids
  {
    if ids != [] {
      var rest := Without(ids[1..], gone);
      NotInWithout(ids[1..], gone, id);
      RemoveFront(ids[0], rest, id);
      assert [] + rest == rest;
    }
  }

  lemma RemoveFront(x: string, rest: seq<string>, id: string)
    ensures Remove([x] + rest, id) == if x == id then rest else [x] + Remove(rest, id)
  {
    assert ([x] + rest)[1..] == rest;
  }

  lemma NothingGone(ids: seq<string>)
    ensures Without(ids, {}) == ids
  {
  }

  ghost predicate ParentOk(hash: Schemes, s: Scheme)
    reads s`parent
  {
    match s.parentId
    case None => s.parent == null
    case Some(p) => p in hash && s.parent == hash[p]
  }

  /** The schemes that are not good. */
  ghost function Bad(hash: Schemes): set<string> {
    set id | id in hash && !Good(hash, id)
  }

  /** While parents are checked: what was removed is bad, and what is not to be checked
      any more and still there is good and has its parent. */
  ghost predicate Checking(all: Schemes, hash: Schemes, gone: set<string>, checked: set<string>)
    reads all.Values`parent
  {
    && Keyed(all) && hash == all - gone && gone <= Bad(all) && gone <= checked
    && (forall id :: id in hash && id in checked ==> Good(all, id) && ParentOk(all, all[id]))
    && (forall id :: id in hash && hash[id].parentId.None? ==> hash[id].parent == null)
  }

  /** The ids of a chain. */
  ghost function Ids(chain: seq<Scheme>): set<string> {
    set s | s in chain :: s.id
  }

  lemma ChainIsGood(all: Schemes, hash: Schemes, gone: set<string>, chain: seq<Scheme>)
    requires Keyed(all) && hash == all - gone && gone <= Bad(all)
    requires Chained(hash, chain) && chain[|chain| - 1].parentId.None?
    ensures forall i :: 0 <= i < |chain| ==> Good(all, chain[i].id)
  {
    forall i | 0 <= i < |chain| ensures Good(all, chain[i].id) {
      EndedChain(hash, chain, i);
      GoodStays(all, hash, chain[i].id, |chain| - 1 - i);
    }
  }

  lemma ChainIsBad(all: Schemes, hash: Schemes, gone: set<string>, chain: seq<Scheme>)
    requires Keyed(all) && hash == all - gone && gone <= Bad(all)
    requires Chained(hash, chain) && Broken(hash, chain)
    ensures Ids(chain) <= Bad(all)
  {
    forall i | 0 <= i < |chain| ensures chain[i].id in Bad(all) {
      if Good(all, chain[i].id) {
        var n: nat :| EndsIn(all, chain[i].id, n);
        GoodStays(all, hash, chain[i].id, n);
        BrokenChain(hash, chain, i, n);
      }
    }
  }

  /** `check_parents` */
  method CheckParents(ids: seq<string>, hash: Schemes) returns (ids': seq<string>, hash': Schemes)
    requires Keyed(hash) && Unique(ids) && (forall id :: id in ids <==> id in hash)
    requires forall id :: id in hash ==> hash[id].parent == null
    modifies hash.Values`parent
    ensures ids' == Without(ids, Bad(hash)) && hash' == hash - Bad(hash)
    ensures forall id :: id in hash' ==> ParentOk(hash', hash'[id])
  {
    ids', hash' := ids, hash;
    var toCheck := ids;
    ghost var gone, checked := {}, {};
    NothingGone(ids);
    while toCheck != []
      invariant Checking(hash, hash', gone, checked) && checked <= hash.Keys
      invariant ids' == Without(ids, gone) && toCheck == Without(ids, checked)
      decreases |hash.Keys| - |checked|
    {
      InWithout(ids, checked, toCheck[0]);
      assert hash'[toCheck[0]].id == toCheck[0];
      ghost var before := checked;
      ids', hash', toCheck, gone, checked := CheckOne(ids, hash, ids', hash', toCheck, gone, checked);
      Larger(before, checked, hash.Keys);
    }
    NothingLeft(ids, hash, hash', gone, checked);
  }

  lemma Larger(a: set<string>, b: set<string>, c: set<string>)
    requires a < b <= c
    ensures |a| < |b| <= |c|
  {
    assert !(b <= a);
    var x :| x in b && x !in a;
    SubsetSize(a, b - {x});
    SubsetSize(b, c);
  }

  lemma NothingLeft(ids: seq<string>, all: Schemes, hash: Schemes, gone: set<string>, checked: set<string>)
    requires Checking(all, hash, gone, checked) && Without(ids, checked) == [] && (forall id :: id in ids <==> id in all)
    ensures gone == Bad(all)
    ensures forall id :: id in hash ==> ParentOk(hash, hash[id])
  {
    forall id | id in hash ensures Good(all, id) && ParentOk(all, hash[id]) {
      InWithout(ids, checked, id);
    }
    forall id | id in hash && hash[id].parentId.Some? ensures hash[id].parentId.value in hash {
      assert Good(all, id);
      var n: nat :| EndsIn(all, id, n);
      assert EndsIn(all, hash[id].parentId.value, n - 1);
      assert Good(all, hash[id].parentId.value);
    }
  }

  /** The chain of a scheme; what was known of the checked schemes stays. */
  method BuildChecked(ghost all: Schemes, hash: Schemes, ghost gone: set<string>, ghost checked: set<string>, start: Scheme)
    returns (chain: seq<Scheme>, valid: bool)
    requires Checking(all, hash, gone, checked) && start.id in hash && hash[start.id] == start
    modifies all.Values`parent
    ensures Chained(hash, chain) && chain[0] == start && Checking(all, hash, gone, checked)
    ensures if valid then forall i :: 0 <= i < |chain| ==> Good(all, chain[i].id) && ParentOk(all, chain[i])
            else Ids(chain) <= Bad(all)
  {
    hide Chained, Broken, Good, Distinct, ParentsSet, Ids;
    assert forall id :: id in hash ==> hash[id] == all[id] && hash[id] in all.Values;
    chain, valid := BuildReferenceChain(start, hash);
    ChainParents(all, hash, chain);
    if valid { ChainIsGood(all, hash, gone, chain); } else { ChainIsBad(all, hash, gone, chain); }
  }

  lemma ChainParents(all: Schemes, hash: Schemes, chain: seq<Scheme>)
    requires (forall id :: id in hash ==> id in all && hash[id] == all[id]) && Chained(hash, chain) && ParentsSet(chain)
    ensures forall i :: 0 <= i < |chain| - 1 ==> ParentOk(all, chain[i])
    ensures var last := chain[|chain| - 1]; last.id in hash && hash[last.id] == last
  {
  }

  /** The ids of the chain are taken off the lists. */
  method RemoveChain(ghost ids: seq<string>, ghost all: Schemes, ids0: seq<string>, hash: Schemes, toCheck: seq<string>,
                     ghost gone: set<string>, ghost checked: set<string>, chain: seq<Scheme>, valid: bool)
    returns (ids': seq<string>, hash': Schemes, toCheck': seq<string>)
    requires Unique(ids) && hash == all - gone && ids0 == Without(ids, gone) && toCheck == Without(ids, checked)
    ensures toCheck' == Without(ids, checked + Ids(chain))
    ensures ids' == Without(ids, if valid then gone else gone + Ids(chain))
    ensures hash' == all - if valid then gone else gone + Ids(chain)
  {
    ids', hash', toCheck' := ids0, hash, toCheck;
    ghost var gone', checked' := gone, checked;
    for i := 0 to |chain|
      invariant toCheck' == Without(ids, checked') && checked' == checked + Ids(chain[..i])
      invariant gone' == (if valid then gone else gone + Ids(chain[..i]))
      invariant ids' == Without(ids, gone') && hash' == all - gone'
    {
      var id := chain[i].id;
      assert chain[..i + 1] == chain[..i] + [chain[i]];
      assert Ids(chain[..i + 1]) == Ids(chain[..i]) + {id};
      RemoveIsWithout(ids, checked', id);
      toCheck', checked' := Remove(toCheck', id), checked' + {id};
      if !valid {
        RemoveIsWithout(ids, gone', id);
        ids', hash', gone' := Remove(ids', id), hash' - {id}, gone' + {id};
      }
    }
    assert chain[..|chain|] == chain;
  }

  /** One round of the loop: the chain of the first scheme to check. */
  method CheckOne(ghost ids: seq<string>, ghost all: Schemes, ids0: seq<string>, hash: Schemes, toCheck: seq<string>,
                  ghost gone: set<string>, ghost checked: set<string>)
    returns (ids': seq<string>, hash': Schemes, toCheck': seq<string>, ghost gone': set<string>, ghost checked': set<string>)
    requires Checking(all, hash, gone, checked) && Unique(ids) && (forall id :: id in ids <==> id in all)
    requires checked <= all.Keys && ids0 == Without(ids, gone) && toCheck == Without(ids, checked) && toCheck != []
    modifies all.Values`parent
    ensures Checking(all, hash', gone', checked') && checked < checked' <= all.Keys
    ensures ids' == Without(ids, gone') && toCheck' == Without(ids, checked')
  {
    InWithout(ids, checked, toCheck[0]);
    var start := hash[toCheck[0]];
    var chain, valid := BuildChecked(all, hash, gone, checked, start);
    ids', hash', toCheck' := RemoveChain(ids, all, ids0, hash, toCheck, gone, checked, chain, valid);
    gone', checked' := if valid then gone else gone + Ids(chain), checked + Ids(chain);
    ChainChecked(all, hash, gone, checked, chain, valid);
  }

  lemma ChainChecked(all: Schemes, hash: Schemes, gone: set<string>, checked: set<string>, chain: seq<Scheme>, valid: bool)
    requires Checking(all, hash, gone, checked) && checked <= all.Keys && Chained(hash, chain) && chain[0].id !in checked
    requires if valid then forall i :: 0 <= i < |chain| ==> Good(all, chain[i].id) && ParentOk(all, chain[i])
             else Ids(chain) <= Bad(all)
    ensures var gone' := if valid then gone else gone + Ids(chain);
      Checking(all, all - gone', gone', checked + Ids(chain))
    ensures checked < checked + Ids(chain) <= all.Keys
  {
    var gone' := if valid then gone else gone + Ids(chain);
    assert chain[0].id in Ids(chain);
    assert forall id :: id in all - gone' ==> id in hash && (all - gone')[id] == hash[id];
    forall id | id in all - gone' && id in checked + Ids(chain) ensures Good(all, id) && ParentOk(all, all[id]) {
      if id !in checked {
        var i :| 0 <= i < |chain| && chain[i].id == id;
        assert hash[id] == chain[i];
      }
    }
  }
}
