/** Looking up a style along the parent chain, with the cache of each scheme. */
module StyleLookup {
  import opened Wrappers
  import opened StyleSchemes

  // ----- without a cache -----

  /** `get_color_by_name` for the definitions of a scheme and its ancestors. */
  function ColorByName(parses: string -> bool, chain: seq<SchemeData>, name: string): Option<string> {
    if name != "" && name[0] == '#' then
      (if parses(name[1..]) then Some(name[1..]) else if parses(name) then Some(name) else None)
    else if chain == [] then None
    else if name in chain[0].colors then Some(chain[0].colors[name])
    else ColorByName(parses, chain[1..], name)
  }

  function FixAttribute(parses: string -> bool, chain: seq<SchemeData>, attribute: Option<string>): Option<string> {
    match attribute
    case None => None
    case Some(name) => ColorByName(parses, chain, name)
  }

  /** The style with real colors, as the scheme that asks for it sees them. */
  function FixStyle(parses: string -> bool, chain: seq<SchemeData>, style: Style): Style {
    style.(background := FixAttribute(parses, chain, style.background),
           foreground := FixAttribute(parses, chain, style.foreground),
           lineBackground := FixAttribute(parses, chain, style.lineBackground))
  }

  /** The first scheme of the chain that defines the style gives it, with the colors of
      that scheme and the ones above it. */
  function Lookup(parses: string -> bool, chain: seq<SchemeData>, styleId: string): Option<Style> {
    if chain == [] then None
    else if styleId in chain[0].styles then Some(FixStyle(parses, chain, chain[0].styles[styleId]))
    else Lookup(parses, chain[1..], styleId)
  }

  // ----- what a style looks like, by the places in the chain -----

  /** Number `j` of the chain is the first from number `i` on that names the color. */
  predicate NamesFirst(chain: seq<SchemeData>, i: nat, name: string, j: nat) {
    i <= j < |chain| && name in chain[j].colors && forall k :: i <= k < j ==> name !in chain[k].colors
  }

  /** `color` is what scheme number `i` takes `name` for: the parsed color after the hash
      sign, with the sign if it cannot be parsed without; any other name is that of the
      first scheme from there on up that has it. */
  ghost predicate IsColor(parses: string -> bool, chain: seq<SchemeData>, i: nat, name: string, color: string) {
    if name != "" && name[0] == '#' then
      (parses(name[1..]) && color == name[1..]) || (!parses(name[1..]) && parses(name) && color == name)
    else
      exists j: nat :: NamesFirst(chain, i, name, j) && chain[j].colors[name] == color
  }

  /** The attribute is unset exactly if it was not set or no color is found for it. */
  ghost predicate Resolves(parses: string -> bool, chain: seq<SchemeData>, i: nat, attribute: Option<string>, r: Option<string>) {
    match r
    case None => attribute.None? || forall color :: !IsColor(parses, chain, i, attribute.value, color)
    case Some(color) => attribute.Some? && IsColor(parses, chain, i, attribute.value, color)
  }

  /** `style` is `raw` as scheme number `i` of the chain sees it. */
  ghost predicate Shows(parses: string -> bool, chain: seq<SchemeData>, i: nat, raw: Style, style: Style) {
    && style.flags == raw.flags
    && Resolves(parses, chain, i, raw.foreground, style.foreground)
    && Resolves(parses, chain, i, raw.background, style.background)
    && Resolves(parses, chain, i, raw.lineBackground, style.lineBackground)
  }

  predicate DefinesFirst(chain: seq<SchemeData>, styleId: string, i: nat) {
    i < |chain| && styleId in chain[i].styles && forall k :: 0 <= k < i ==> styleId !in chain[k].styles
  }

  /** The answer to a request for a style: none exactly if no scheme of the chain defines
      it, otherwise the style of the first that does, as that scheme sees it. */
  ghost predicate IsAnswer(parses: string -> bool, chain: seq<SchemeData>, styleId: string, r: Option<Style>) {
    match r
    case None => forall i :: 0 <= i < |chain| ==> styleId !in chain[i].styles
    case Some(style) => exists i: nat :: DefinesFirst(chain, styleId, i) && Shows(parses, chain, i, chain[i].styles[styleId], style)
  }

  lemma {:induction false} ColorByNameMeans(parses: string -> bool, chain: seq<SchemeData>, i: nat, name: string)
    requires i <= |chain|
    ensures Resolves(parses, chain, i, Some(name), ColorByName(parses, chain[i..], name))
    decreases |chain| - i
  {
    if i < |chain| {
      assert chain[i..][1..] == chain[i + 1..];
      ColorByNameMeans(parses, chain, i + 1, name);
      if name in chain[i].colors {
        assert NamesFirst(chain, i, name, i);
      } else {
        forall color ensures IsColor(parses, chain, i, name, color) <==> IsColor(parses, chain, i + 1, name, color) {
          assert forall j: nat :: NamesFirst(chain, i, name, j) <==> NamesFirst(chain, i + 1, name, j);
        }
      }
    }
  }

  lemma FixStyleMeans(parses: string -> bool, chain: seq<SchemeData>, i: nat, style: Style)
    requires i <= |chain|
    ensures Shows(parses, chain, i, style, FixStyle(parses, chain[i..], style))
  {
    hide ColorByName, IsColor;
    if style.foreground.Some? { ColorByNameMeans(parses, chain, i, style.foreground.value); }
    if style.background.Some? { ColorByNameMeans(parses, chain, i, style.background.value); }
    if style.lineBackground.Some? { ColorByNameMeans(parses, chain, i, style.lineBackground.value); }
  }

  lemma {:induction false} LookupMeans(parses: string -> bool, chain: seq<SchemeData>, i: nat, styleId: string)
    requires i <= |chain| && forall k :: 0 <= k < i ==> styleId !in chain[k].styles
    ensures IsAnswer(parses, chain, styleId, Lookup(parses, chain[i..], styleId))
    decreases |chain| - i
  {
    hide FixStyle, Shows;
    if i < |chain| {
      assert chain[i..][1..] == chain[i + 1..] && chain[i..][0] == chain[i];
      if styleId in chain[i].styles {
        FixStyleMeans(parses, chain, i, chain[i].styles[styleId]);
        assert DefinesFirst(chain, styleId, i);
      } else {
        LookupMeans(parses, chain, i + 1, styleId);
      }
    }
  }

  /** There is only one such answer. */
  lemma AnswerOnce(parses: string -> bool, chain: seq<SchemeData>, styleId: string, r: Option<Style>, q: Option<Style>)
    requires IsAnswer(parses, chain, styleId, r) && IsAnswer(parses, chain, styleId, q)
    ensures r == q
  {
    hide Resolves;
    if r.Some? && q.Some? {
      var i: nat :| DefinesFirst(chain, styleId, i) && Shows(parses, chain, i, chain[i].styles[styleId], r.value);
      var raw := chain[i].styles[styleId];
      ResolvesOnce(parses, chain, i, raw.foreground, r.value.foreground, q.value.foreground);
      ResolvesOnce(parses, chain, i, raw.background, r.value.background, q.value.background);
      ResolvesOnce(parses, chain, i, raw.lineBackground, r.value.lineBackground, q.value.lineBackground);
    }
  }

  lemma ResolvesOnce(parses: string -> bool, chain: seq<SchemeData>, i: nat, attribute: Option<string>, r: Option<string>, q: Option<string>)
    requires Resolves(parses, chain, i, attribute, r) && Resolves(parses, chain, i, attribute, q)
    ensures r == q
  {
  }

  // ----- the schemes in the heap -----

  /** The ancestors of the scheme are `above`, the nearest first. */
  ghost predicate Linked(s: Scheme, above: seq<Scheme>)
    reads s`parent, above`parent
    decreases |above|
  {
    if above == [] then s.parent == null else s.parent == above[0] && Linked(above[0], above[1..])
  }

  ghost function Chain(s: Scheme, above: seq<Scheme>): (r: seq<SchemeData>)
    ensures |r| == |above| + 1 && r[0] == s.data
    ensures forall k :: 0 <= k < |above| ==> r[k + 1] == above[k].data
    decreases |above|
  {
    [s.data] + (if above == [] then [] else Chain(above[0], above[1..]))
  }

  /** `get_color_by_name` */
  method GetColorByName(parses: string -> bool, s: Scheme, name: string, ghost above: seq<Scheme>) returns (color: Option<string>)
    requires Linked(s, above)
    ensures Resolves(parses, Chain(s, above), 0, Some(name), color)
    ensures color == ColorByName(parses, Chain(s, above), name)
    decreases |above|
  {
    ColorByNameMeans(parses, Chain(s, above), 0, name);
    assert Chain(s, above)[0..] == Chain(s, above);
    if name != "" && name[0] == '#' {
      return if parses(name[1..]) then Some(name[1..]) else if parses(name) then Some(name) else None;
    }
    assert Chain(s, above)[1..] == if above == [] then [] else Chain(above[0], above[1..]);
    if name in s.data.colors {
      return Some(s.data.colors[name]);
    }
    if s.parent != null {
      color := GetColorByName(parses, s.parent, name, above[1..]);
    } else {
      color := None;
    }
  }

  /** `fix_style_colors` */
  method FixStyleColors(parses: string -> bool, s: Scheme, realStyle: Style, ghost above: seq<Scheme>) returns (style: Style)
    requires Linked(s, above)
    ensures Shows(parses, Chain(s, above), 0, realStyle, style)
    ensures style == FixStyle(parses, Chain(s, above), realStyle)
  {
    hide Resolves, ColorByName;
    FixStyleMeans(parses, Chain(s, above), 0, realStyle);
    assert Chain(s, above)[0..] == Chain(s, above);
    style := realStyle;
    if style.background.Some? {
      var color := GetColorByName(parses, s, style.background.value, above);
      style := style.(background := color);
    }
    if style.foreground.Some? {
      var color := GetColorByName(parses, s, style.foreground.value, above);
      style := style.(foreground := color);
    }
    if style.lineBackground.Some? {
      var color := GetColorByName(parses, s, style.lineBackground.value, above);
      style := style.(lineBackground := color);
    }
  }

  // ----- all schemes and their caches -----

  /** Schemes with their ancestors, which are among them. */
  type Family = map<Scheme, seq<Scheme>>

  ghost predicate IsFamily(family: Family)
    reads family.Keys`parent
  {
    forall s :: s in family ==>
      if family[s] == [] then s.parent == null
      else var p := family[s][0]; s.parent == p && p in family && family[p] == family[s][1..]
  }

  /** Every cached answer is the one that the lookup without a cache gives. */
  ghost predicate CachesOk(parses: string -> bool, family: Family)
    reads family.Keys`styleCache
  {
    forall s, id :: s in family && id in s.styleCache ==> s.styleCache[id] == Lookup(parses, Chain(s, family[s]), id)
  }

  lemma {:induction false} FamilyLinked(family: Family, s: Scheme)
    requires IsFamily(family) && s in family
    ensures Linked(s, family[s])
    decreases |family[s]|
  {
    if family[s] != [] { FamilyLinked(family, family[s][0]); }
  }

  /** `gtk_source_style_scheme_get_style`: with its cache it gives the answer of the
      lookup without one, and leaves the caches of all schemes right. */
  method GetStyle(parses: string -> bool, s: Scheme, styleId: string, ghost family: Family) returns (style: Option<Style>)
    requires IsFamily(family) && CachesOk(parses, family) && s in family
    modifies family.Keys`styleCache
    ensures IsAnswer(parses, Chain(s, family[s]), styleId, style)
    ensures style == Lookup(parses, Chain(s, family[s]), styleId)
    ensures CachesOk(parses, family) && styleId in s.styleCache
    decreases |family[s]|
  {
    hide ColorByName, FixStyle, Shows, Resolves, IsAnswer, DefinesFirst;
    ghost var above := family[s];
    LookupMeans(parses, Chain(s, above), 0, styleId);
    assert Chain(s, above)[0..] == Chain(s, above);
    FamilyLinked(family, s);
    assert Chain(s, above)[1..] == if above == [] then [] else Chain(above[0], above[1..]);
    if styleId in s.styleCache {
      return s.styleCache[styleId];
    }
    style := None;
    if styleId in s.data.styles {
      var fixed := FixStyleColors(parses, s, s.data.styles[styleId], above);
      style := Some(fixed);
    } else if s.parent != null {
      style := GetStyle(parses, s.parent, styleId, family);
    }
    s.styleCache := s.styleCache[styleId := style];
  }

  // ----- after loading -----

  /** The ancestors of a scheme whose parent chain ends. */
  ghost function Ancestors(hash: Schemes, id: string, n: nat): seq<Scheme>
    requires EndsIn(hash, id, n)
    decreases n
  {
    match hash[id].parentId
    case None => []
    case Some(p) =>
      assert EndsIn(hash, p, n - 1);
      [hash[p]] + Ancestors(hash, p, n - 1)
  }

  lemma {:induction false} SameAncestors(hash: Schemes, id: string, n: nat, m: nat)
    requires EndsIn(hash, id, n) && EndsIn(hash, id, m)
    ensures Ancestors(hash, id, n) == Ancestors(hash, id, m)
    decreases n
  {
    if hash[id].parentId.Some? { SameAncestors(hash, hash[id].parentId.value, n - 1, m - 1); }
  }

  ghost function AncestorsOf(hash: Schemes, id: string): seq<Scheme>
    requires Good(hash, id)
  {
    var n: nat :| EndsIn(hash, id, n);
    Ancestors(hash, id, n)
  }

  lemma KeptIsGood(all: Schemes, hash: Schemes, id: string)
    requires hash == all - Bad(all) && id in hash
    ensures Good(hash, id)
  {
    assert Good(all, id);
    var n: nat :| EndsIn(all, id, n);
    GoodStays(all, hash, id, n);
  }

  /** The schemes that `check_parents` keeps, each linked to all its ancestors: with no
      lookup made before, the caches are right. */
  lemma KeptFamily(parses: string -> bool, all: Schemes, hash: Schemes) returns (family: Family)
    requires Keyed(all) && hash == all - Bad(all)
    requires forall id :: id in hash ==> ParentOk(hash, hash[id]) && hash[id].styleCache == map[]
    ensures IsFamily(family) && family.Keys == hash.Values && CachesOk(parses, family)
  {
    forall id | id in hash ensures Good(hash, id) { KeptIsGood(all, hash, id); }
    family := map s | s in hash.Values :: AncestorsOf(hash, s.id);
    forall s | s in family
      ensures if family[s] == [] then s.parent == null
              else var p := family[s][0]; s.parent == p && p in family && family[p] == family[s][1..]
    {
      assert ParentOk(hash, hash[s.id]) && hash[s.id] == s;
      var n: nat :| EndsIn(hash, s.id, n) && AncestorsOf(hash, s.id) == Ancestors(hash, s.id, n);
      if s.parentId.Some? {
        var p := hash[s.parentId.value];
        assert p.id == s.parentId.value && p in hash.Values;
        var m: nat :| EndsIn(hash, p.id, m) && AncestorsOf(hash, p.id) == Ancestors(hash, p.id, m);
        SameAncestors(hash, p.id, n - 1, m);
        assert Ancestors(hash, s.id, n) == [p] + Ancestors(hash, p.id, n - 1);
      }
    }
  }
}
