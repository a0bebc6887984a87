/** The extraction rules of the two E-utilities lookups, over a parsed response
    tree: which `Link/Id` texts an ELink response yields, and which dataset
    fields an ESummary `DocSum` yields. */
module GeoExtraction {
  import opened Common
  import opened ElementTree

  /** The link relation requested from ELink and looked for in its answer. */
  const PubmedGds := "pubmed_gds"

  // ---------------------------------------------------------------------
  // ELink: PubMed id -> GEO dataset ids
  // ---------------------------------------------------------------------

  /** `link.find("Id").text`. A missing `Id` child raises AttributeError; an
      `Id` without text is reported as `Raised(ValueError)`, because a dataset
      id is a string here (the source would append None). */
  function IdOf(link: Elem): Result<string> {
    match Find(link, "Id")
    case None => Raised(AttributeError)
    case Some(id) =>
      match id.text
      case None => Raised(ValueError)
      case Some(t) => Ok(t)
  }

  /** The ids of a sequence of `Link` elements, in order; the first failure wins. */
  function LinkIds(links: seq<Elem>): Result<seq<string>> {
    if links == [] then Ok([])
    else match LinkIds(links[..|links| - 1])
      case Raised(e) => Raised(e)
      case Ok(ids) =>
        match IdOf(links[|links| - 1])
        case Raised(e) => Raised(e)
        case Ok(id) => Ok(ids + [id])
  }

  /** `link_set_db.find("LinkName").text == "pubmed_gds"`, where a missing
      `LinkName` child raises AttributeError. */
  function IsPubmedGds(db: Elem): Result<bool> {
    match Find(db, "LinkName")
    case None => Raised(AttributeError)
    case Some(ln) => Ok(ln.text == Some(PubmedGds))
  }

  /** The ids one `LinkSetDb` contributes. */
  function DbIds(db: Elem): Result<seq<string>> {
    match IsPubmedGds(db)
    case Raised(e) => Raised(e)
    case Ok(matches) => if matches then LinkIds(FindAll(db, "Link")) else Ok([])
  }

  /** The ids of a sequence of `LinkSetDb` elements, concatenated in order. */
  function DbsIds(dbs: seq<Elem>): Result<seq<string>> {
    if dbs == [] then Ok([])
    else match DbsIds(dbs[..|dbs| - 1])
      case Raised(e) => Raised(e)
      case Ok(ids) =>
        match DbIds(dbs[|dbs| - 1])
        case Raised(e) => Raised(e)
        case Ok(more) => Ok(ids + more)
  }

  /** The extraction rule of `get_geo_ids_for_pmid`: the `LinkSetDb`s of the
      FIRST `LinkSet` child of the root; no `LinkSet` gives no ids. */
  function GeoIdsOf(root: Elem): Result<seq<string>> {
    match Find(root, "LinkSet")
    case None => Ok([])
    case Some(ls) => DbsIds(FindAll(ls, "LinkSetDb"))
  }

  lemma {:induction false} LinkIdsPrefixRaised(links: seq<Elem>, n: nat)
    requires n <= |links| && LinkIds(links[..n]).Raised?
    ensures LinkIds(links) == LinkIds(links[..n])
    decreases |links| - n
  {
    if n < |links| {
      assert links[..n + 1][..n] == links[..n];
      LinkIdsPrefixRaised(links, n + 1);
    } else {
      assert links[..n] == links;
    }
  }

  lemma {:induction false} DbsIdsPrefixRaised(dbs: seq<Elem>, n: nat)
    requires n <= |dbs| && DbsIds(dbs[..n]).Raised?
    ensures DbsIds(dbs) == DbsIds(dbs[..n])
    decreases |dbs| - n
  {
    if n < |dbs| {
      assert dbs[..n + 1][..n] == dbs[..n];
      DbsIdsPrefixRaised(dbs, n + 1);
    } else {
      assert dbs[..n] == dbs;
    }
  }

  /** The inner loop of `get_geo_ids_for_pmid`: one id per `Link`, in order. */
  method ExtractLinkIds(links: seq<Elem>) returns (r: Result<seq<string>>)
    ensures r == LinkIds(links)
  {
    var ids: seq<string> := [];
    var j := 0;
    while j < |links|
      invariant 0 <= j <= |links|
      invariant LinkIds(links[..j]) == Ok(ids)
    {
      assert links[..j + 1][..j] == links[..j];
      var id := Find(links[j], "Id");
      if id.None? || id.value.text.None? {
        LinkIdsPrefixRaised(links, j + 1);
        return Raised(if id.None? then AttributeError else ValueError);
      }
      ids := ids + [id.value.text.value];
      j := j + 1;
    }
    assert links[..j] == links;
    return Ok(ids);
  }

  /** The loops of `get_geo_ids_for_pmid` (the part of its `try` after the
      parse): the outer loop over the `LinkSetDb`s of the first `LinkSet`. */
  method ExtractGeoIds(root: Elem) returns (r: Result<seq<string>>)
    ensures r == GeoIdsOf(root)
  {
    var geoIds: seq<string> := [];
    var linkSet := Find(root, "LinkSet");
    if linkSet.None? {
      return Ok(geoIds);
    }
    var dbs := FindAll(linkSet.value, "LinkSetDb");
    var i := 0;
    while i < |dbs|
      invariant 0 <= i <= |dbs|
      invariant DbsIds(dbs[..i]) == Ok(geoIds)
    {
      assert dbs[..i + 1][..i] == dbs[..i];
      var linkName := Find(dbs[i], "LinkName");
      if linkName.None? {
        DbsIdsPrefixRaised(dbs, i + 1);
        return Raised(AttributeError);
      }
      if linkName.value.text == Some(PubmedGds) {
        var more := ExtractLinkIds(FindAll(dbs[i], "Link"));
        if more.Raised? {
          DbsIdsPrefixRaised(dbs, i + 1);
          return Raised(more.error);
        }
        assert DbIds(dbs[i]) == more;
        geoIds := geoIds + more.value;
      } else {
        assert DbIds(dbs[i]) == Ok([]);
        assert geoIds + [] == geoIds;
      }
      i := i + 1;
    }
    assert dbs[..i] == dbs;
    return Ok(geoIds);
  }

  /** A `LinkSetDb` that counts: it has a `LinkName` child whose text is
      `pubmed_gds`. */
  ghost predicate Matching(db: Elem) {
    IsPubmedGds(db) == Ok(true)
  }

  lemma {:induction false} LinkIdsMembers(links: seq<Elem>, x: string)
    requires LinkIds(links).Ok?
    ensures x in LinkIds(links).value <==> exists l :: l in links && IdOf(l) == Ok(x)
  {
    if links != [] {
      var init := links[..|links| - 1];
      LinkIdsMembers(init, x);
      assert forall l :: l in links <==> l in init || l == links[|links| - 1];
    }
  }

  lemma {:induction false} DbsIdsMembers(dbs: seq<Elem>, x: string)
    requires DbsIds(dbs).Ok?
    ensures x in DbsIds(dbs).value <==>
      exists db, l :: db in dbs && Matching(db) && l in FindAll(db, "Link") && IdOf(l) == Ok(x)
  {
    if dbs != [] {
      var init := dbs[..|dbs| - 1];
      var last := dbs[|dbs| - 1];
      DbsIdsMembers(init, x);
      assert forall db :: db in dbs <==> db in init || db == last;
      if Matching(last) {
        LinkIdsMembers(FindAll(last, "Link"), x);
      }
    }
  }

  /** `LinkIds` succeeds exactly when every `Link` has an `Id` with text, and
      then holds those texts one per `Link`, in order; otherwise it reports the
      failure of the first `Link` that fails. */
  lemma {:induction false} LinkIdsExactly(links: seq<Elem>)
    ensures LinkIds(links).Ok? <==> forall i :: 0 <= i < |links| ==> IdOf(links[i]).Ok?
    ensures LinkIds(links).Ok? ==>
      && |LinkIds(links).value| == |links|
      && forall i :: 0 <= i < |links| ==> IdOf(links[i]) == Ok(LinkIds(links).value[i])
    ensures LinkIds(links).Raised? ==>
      exists i :: 0 <= i < |links| && IdOf(links[i]) == Raised(LinkIds(links).error)
                  && forall j :: 0 <= j < i ==> IdOf(links[j]).Ok?
  {
    if links != [] {
      var n := |links| - 1;
      var init := links[..n];
      LinkIdsExactly(init);
      assert forall i :: 0 <= i < n ==> init[i] == links[i];
    }
  }

  /** Ids of two runs of `Link`s read one after the other: the first failure
      wins, otherwise the ids are concatenated. */
  lemma {:induction false} LinkIdsAppend(xs: seq<Elem>, ys: seq<Elem>)
    ensures LinkIds(xs + ys) ==
      match LinkIds(xs)
      case Raised(e) => Raised(e)
      case Ok(a) =>
        match LinkIds(ys)
        case Raised(e) => Raised(e)
        case Ok(b) => Ok(a + b)
  {
    if ys == [] {
      assert xs + ys == xs;
      if LinkIds(xs).Ok? {
        assert LinkIds(xs).value + [] == LinkIds(xs).value;
      }
    } else {
      var n := |ys| - 1;
      var init := ys[..n];
      LinkIdsAppend(xs, init);
      assert (xs + ys)[..|xs + ys| - 1] == xs + init;
      assert (xs + ys)[|xs + ys| - 1] == ys[n];
      match LinkIds(xs)
      case Raised(_) =>
      case Ok(a) =>
        match LinkIds(init)
        case Raised(_) =>
        case Ok(b) =>
          match IdOf(ys[n])
          case Raised(_) =>
          case Ok(id) => assert a + b + [id] == a + (b + [id]);
    }
  }

  /** The `Link` elements of the matching `LinkSetDb`s, in document order. */
  ghost function GdsLinks(dbs: seq<Elem>): seq<Elem> {
    if dbs == [] then []
    else GdsLinks(dbs[..|dbs| - 1])
         + (if Matching(dbs[|dbs| - 1]) then FindAll(dbs[|dbs| - 1], "Link") else [])
  }

  /** When every `LinkSetDb` has a `LinkName`, reading them one by one gives
      the same answer as reading all matching `Link`s as one run. */
  lemma {:induction false} DbsIdsAsLinks(dbs: seq<Elem>)
    requires forall k :: 0 <= k < |dbs| ==> IsPubmedGds(dbs[k]).Ok?
    ensures DbsIds(dbs) == LinkIds(GdsLinks(dbs))
  {
    if dbs != [] {
      var n := |dbs| - 1;
      var init := dbs[..n];
      assert forall k :: 0 <= k < |init| ==> init[k] == dbs[k];
      DbsIdsAsLinks(init);
      var more := if Matching(dbs[n]) then FindAll(dbs[n], "Link") else [];
      assert DbIds(dbs[n]) == LinkIds(more);
      LinkIdsAppend(GdsLinks(init), more);
    }
  }

  /** A successful `DbsIds` met a `LinkName` in every `LinkSetDb`. */
  lemma {:induction false} DbsIdsNamed(dbs: seq<Elem>)
    requires DbsIds(dbs).Ok?
    ensures forall k :: 0 <= k < |dbs| ==> IsPubmedGds(dbs[k]).Ok?
  {
    if dbs != [] {
      var n := |dbs| - 1;
      DbsIdsNamed(dbs[..n]);
      assert forall k :: 0 <= k < n ==> dbs[..n][k] == dbs[k];
    }
  }

  /** The `Link` elements whose ids `get_geo_ids_for_pmid` collects. */
  ghost function LinksOf(root: Elem): seq<Elem> {
    match Find(root, "LinkSet")
    case None => []
    case Some(ls) => GdsLinks(FindAll(ls, "LinkSetDb"))
  }

  /** ELink extraction returns the `Link/Id` texts of the `Link`s under the
      `LinkSetDb`s of the first `LinkSet` whose `LinkName` is `pubmed_gds`,
      one per `Link`, in document order and with repetitions, and `[]` when
      there is no `LinkSet`. When every `LinkSetDb` has a `LinkName` it fails
      exactly when one of those `Link`s has no `Id` text, with the error of the
      first such `Link`. */
  lemma GeoIdsExactly(root: Elem)
    ensures Find(root, "LinkSet").None? ==> GeoIdsOf(root) == Ok([])
    ensures GeoIdsOf(root).Ok? ==>
      && |GeoIdsOf(root).value| == |LinksOf(root)|
      && forall i :: 0 <= i < |LinksOf(root)| ==> IdOf(LinksOf(root)[i]) == Ok(GeoIdsOf(root).value[i])
    ensures Find(root, "LinkSet").Some?
            && (forall db :: db in FindAll(Find(root, "LinkSet").value, "LinkSetDb") ==> IsPubmedGds(db).Ok?) ==>
      GeoIdsOf(root) == LinkIds(LinksOf(root))
  {
    if Find(root, "LinkSet").Some? {
      var dbs := FindAll(Find(root, "LinkSet").value, "LinkSetDb");
      if GeoIdsOf(root).Ok? {
        DbsIdsNamed(dbs);
      }
      if forall k :: 0 <= k < |dbs| ==> IsPubmedGds(dbs[k]).Ok? {
        DbsIdsAsLinks(dbs);
      }
    }
    LinkIdsExactly(LinksOf(root));
  }

  // ---------------------------------------------------------------------
  // ESummary: GEO dataset id -> dataset details
  // ---------------------------------------------------------------------

  /** `item.get("Name")`. */
  function NameOf(e: Elem): Option<string> {
    GetAttr(e, "Name")
  }

  /** `item.text or ""`. */
  function TextOr(e: Elem): string {
    e.text.GetOr("")
  }

  /** The texts of the items named `name`, in document order. */
  function NamedTexts(items: seq<Elem>, name: string): seq<string> {
    if items == [] then []
    else NamedTexts(items[..|items| - 1], name)
         + (if NameOf(items[|items| - 1]) == Some(name) then [TextOr(items[|items| - 1])] else [])
  }

  function LowerChar(c: char): char {
    if 'A' <= c <= 'Z' then (c as int + 32) as char else c
  }

  /** `str.lower()` restricted to ASCII letters: the result has no upper-case
      letter left, every other character is kept, and each upper-case letter
      becomes the lower-case letter at the same place in the alphabet. */
  function Lower(s: string): (r: string)
    ensures |r| == |s|
    ensures forall i :: 0 <= i < |r| ==> !('A' <= r[i] <= 'Z')
    ensures forall i :: 0 <= i < |s| && !('A' <= s[i] <= 'Z') ==> r[i] == s[i]
    ensures forall i :: 0 <= i < |s| && 'A' <= s[i] <= 'Z' ==>
      'a' <= r[i] <= 'z' && r[i] as int - 'a' as int == s[i] as int - 'A' as int
  {
    seq(|s|, i requires 0 <= i < |s| => LowerChar(s[i]))
  }

  /** `sub in s` for strings. */
  function Contains(s: string, sub: string): bool
    decreases |s|
  {
    if |s| < |sub| then false
    else s[..|sub|] == sub || Contains(s[1..], sub)
  }

  /** The condition on a `gdsSubset` sub-item. */
  predicate IsDesign(sub: Elem) {
    NameOf(sub) == Some("description") && Contains(Lower(TextOr(sub)), "design")
  }

  /** The texts of the design sub-items in `subs`, in order. */
  function DesignsIn(subs: seq<Elem>): seq<string> {
    if subs == [] then []
    else DesignsIn(subs[..|subs| - 1])
         + (if IsDesign(subs[|subs| - 1]) then [TextOr(subs[|subs| - 1])] else [])
  }

  /** The design texts of every `gdsSubset` item, in document order. */
  function DesignTexts(items: seq<Elem>): seq<string> {
    if items == [] then []
    else DesignTexts(items[..|items| - 1])
         + (if NameOf(items[|items| - 1]) == Some("gdsSubset")
            then DesignsIn(FindAll(items[|items| - 1], "Item")) else [])
  }

  /** The dataset dictionary built by `get_geo_dataset_details` from a `DocSum`,
      without the PMID that the orchestrator adds later. */
  datatype Details = Details(geoId: string, title: string, experimentType: string, summary: string,
                             organism: string, overallDesign: string)

  /** The fields after the items `items` have been processed in order: every
      field starts as "" and the last item of each name wins. */
  function DetailsFrom(geoId: string, items: seq<Elem>): Details {
    Details(geoId,
            LastOr(NamedTexts(items, "title"), ""),
            LastOr(NamedTexts(items, "gdsType"), ""),
            LastOr(NamedTexts(items, "summary"), ""),
            LastOr(NamedTexts(items, "taxon"), ""),
            LastOr(DesignTexts(items), ""))
  }

  /** The details a `DocSum` yields: those of its `Item` children. */
  function DetailsOf(geoId: string, docSum: Elem): Details {
    DetailsFrom(geoId, FindAll(docSum, "Item"))
  }

  /** A field taken from the items named `name` holds the text of the LAST such
      item (or "" for one without text), or "" when no item has that name. */
  lemma {:induction false} LastNamedText(items: seq<Elem>, name: string)
    ensures var t := LastOr(NamedTexts(items, name), "");
      || (exists i :: 0 <= i < |items| && NameOf(items[i]) == Some(name) && t == TextOr(items[i])
                      && forall j :: i < j < |items| ==> NameOf(items[j]) != Some(name))
      || (t == "" && forall j :: 0 <= j < |items| ==> NameOf(items[j]) != Some(name))
  {
    if items != [] {
      var n := |items| - 1;
      if NameOf(items[n]) != Some(name) {
        LastNamedText(items[..n], name);
        assert NamedTexts(items, name) == NamedTexts(items[..n], name);
        assert forall j :: 0 <= j < n ==> items[..n][j] == items[j];
      } else {
        assert LastOr(NamedTexts(items, name), "") == TextOr(items[n]);
      }
    }
  }

  lemma {:induction false} DesignsInMention(subs: seq<Elem>)
    ensures forall t :: t in DesignsIn(subs) ==> Contains(Lower(t), "design")
  {
    if subs != [] {
      DesignsInMention(subs[..|subs| - 1]);
    }
  }

  lemma {:induction false} DesignTextsMention(items: seq<Elem>)
    ensures forall t :: t in DesignTexts(items) ==> Contains(Lower(t), "design")
  {
    if items != [] {
      DesignTextsMention(items[..|items| - 1]);
      DesignsInMention(FindAll(items[|items| - 1], "Item"));
    }
  }

  /** A design sub-item has a non-empty text, since "design" occurs in it. */
  lemma DesignTextNonEmpty(sub: Elem)
    requires IsDesign(sub)
    ensures TextOr(sub) != ""
  {
    assert |Lower(TextOr(sub))| >= |"design"|;
  }

  /** Position `j` of the sub-items of item `i` is a design description of a
      `gdsSubset` item. */
  ghost predicate DesignAt(items: seq<Elem>, i: int, j: int) {
    && 0 <= i < |items| && NameOf(items[i]) == Some("gdsSubset")
    && 0 <= j < |FindAll(items[i], "Item")| && IsDesign(FindAll(items[i], "Item")[j])
  }

  /** Within one `gdsSubset`: there is a design text exactly when some
      sub-item is a design description. */
  lemma {:induction false} DesignsInEmpty(subs: seq<Elem>)
    ensures DesignsIn(subs) == [] <==> forall j :: 0 <= j < |subs| ==> !IsDesign(subs[j])
  {
    if subs != [] {
      var n := |subs| - 1;
      var init := subs[..n];
      DesignsInEmpty(init);
      if !IsDesign(subs[n]) {
        assert DesignsIn(subs) == DesignsIn(init);
        assert forall j :: 0 <= j < n ==> init[j] == subs[j];
      }
    }
  }

  /** Within one `gdsSubset`: the last design text comes from the last design
      description. */
  lemma {:induction false} DesignsInLast(subs: seq<Elem>)
    requires DesignsIn(subs) != []
    ensures exists j :: 0 <= j < |subs| && IsDesign(subs[j]) && LastOr(DesignsIn(subs), "") == TextOr(subs[j])
                        && forall k :: j < k < |subs| ==> !IsDesign(subs[k])
  {
    var n := |subs| - 1;
    var init := subs[..n];
    if IsDesign(subs[n]) {
      assert LastOr(DesignsIn(subs), "") == TextOr(subs[n]);
    } else {
      assert DesignsIn(subs) == DesignsIn(init);
      DesignsInLast(init);
      var j :| 0 <= j < n && IsDesign(init[j]) && LastOr(DesignsIn(init), "") == TextOr(init[j])
               && forall k :: j < k < n ==> !IsDesign(init[k]);
      assert init[j] == subs[j];
      forall k | j < k < |subs| ensures !IsDesign(subs[k]) {
        if k < n {
          assert init[k] == subs[k];
        }
      }
    }
  }

  /** Over all items: there is a design text exactly when some `gdsSubset`
      item has a design description. */
  lemma {:induction false} DesignTextsEmpty(items: seq<Elem>)
    ensures DesignTexts(items) == [] <==> forall i, j :: !DesignAt(items, i, j)
  {
    if items != [] {
      var n := |items| - 1;
      var init := items[..n];
      var subs := FindAll(items[n], "Item");
      DesignTextsEmpty(init);
      DesignsInEmpty(subs);
      if DesignTexts(items) == [] {
        assert DesignTexts(init) == [];
        forall i, j ensures !DesignAt(items, i, j) {
          if 0 <= i < n {
            assert init[i] == items[i] && !DesignAt(init, i, j);
          } else if i == n && NameOf(items[n]) == Some("gdsSubset") && 0 <= j < |subs| {
            assert !IsDesign(subs[j]);
          }
        }
      } else if NameOf(items[n]) == Some("gdsSubset") && DesignsIn(subs) != [] {
        var j :| 0 <= j < |subs| && IsDesign(subs[j]);
        assert DesignAt(items, n, j);
      } else {
        assert DesignTexts(init) != [];
        var i, j :| DesignAt(init, i, j);
        assert init[i] == items[i] && DesignAt(items, i, j);
      }
    }
  }

  /** Over all items: the last design text comes from the last design
      description, in document order. */
  lemma {:induction false} DesignTextsLast(items: seq<Elem>)
    requires DesignTexts(items) != []
    ensures exists i, j :: DesignAt(items, i, j) && LastOr(DesignTexts(items), "") == TextOr(FindAll(items[i], "Item")[j])
                           && NoLaterDesign(items, i, j)
  {
    var n := |items| - 1;
    var init := items[..n];
    var subs := FindAll(items[n], "Item");
    DesignsInEmpty(subs);
    if NameOf(items[n]) == Some("gdsSubset") && DesignsIn(subs) != [] {
      DesignsInLast(subs);
      var j :| 0 <= j < |subs| && IsDesign(subs[j]) && LastOr(DesignsIn(subs), "") == TextOr(subs[j])
               && forall k :: j < k < |subs| ==> !IsDesign(subs[k]);
      assert DesignAt(items, n, j);
      forall i', j' | DesignAt(items, i', j') ensures i' < n || (i' == n && j' <= j) {
        if i' == n {
          assert IsDesign(subs[j']);
        }
      }
    } else {
      assert DesignTexts(items) == DesignTexts(init);
      DesignTextsLast(init);
      var i, j :| DesignAt(init, i, j) && LastOr(DesignTexts(init), "") == TextOr(FindAll(init[i], "Item")[j])
                  && NoLaterDesign(init, i, j);
      assert init[i] == items[i] && DesignAt(items, i, j);
      forall j' ensures !DesignAt(items, n, j') {
        if NameOf(items[n]) == Some("gdsSubset") && 0 <= j' < |subs| {
          assert !IsDesign(subs[j']);
        }
      }
      NoLaterDesignExtends(items, i, j);
    }
  }

  /** No design description comes after position `j` of item `i`. */
  ghost predicate NoLaterDesign(items: seq<Elem>, i: int, j: int) {
    forall i', j' :: DesignAt(items, i', j') ==> i' < i || (i' == i && j' <= j)
  }

  /** An item without design descriptions at the end adds no later one. */
  lemma NoLaterDesignExtends(items: seq<Elem>, i: int, j: int)
    requires items != [] && forall i', j' :: DesignAt(items, i', j') ==> i' < |items| - 1
    requires NoLaterDesign(items[..|items| - 1], i, j)
    ensures NoLaterDesign(items, i, j)
  {
    var init := items[..|items| - 1];
    forall i', j' | DesignAt(items, i', j') ensures i' < i || (i' == i && j' <= j) {
      assert init[i'] == items[i'] && DesignAt(init, i', j');
    }
  }

  /** `overall_design` holds the text of the LAST `description` sub-item, over
      all `gdsSubset` items in document order, whose lower-cased text contains
      "design"; it is "" exactly when there is no such sub-item. */
  lemma OverallDesignIsLastDesign(geoId: string, docSum: Elem)
    ensures var d := DetailsOf(geoId, docSum).overallDesign; var items := FindAll(docSum, "Item");
      && (d == "" <==> forall i, j :: !DesignAt(items, i, j))
      && (d != "" ==> exists i, j :: DesignAt(items, i, j) && d == TextOr(FindAll(items[i], "Item")[j])
                                     && forall i', j' :: DesignAt(items, i', j') ==> i' < i || (i' == i && j' <= j))
  {
    var items := FindAll(docSum, "Item");
    DesignTextsEmpty(items);
    if DesignTexts(items) != [] {
      DesignTextsLast(items);
      var i, j :| DesignAt(items, i, j) && LastOr(DesignTexts(items), "") == TextOr(FindAll(items[i], "Item")[j]);
      DesignTextNonEmpty(FindAll(items[i], "Item")[j]);
    }
  }

  /** `overall_design` is either still "" or a description whose lower-cased
      text contains "design". */
  lemma OverallDesignMentionsDesign(geoId: string, docSum: Elem)
    ensures var d := DetailsOf(geoId, docSum).overallDesign;
      d == "" || Contains(Lower(d), "design")
  {
    DesignTextsMention(FindAll(docSum, "Item"));
  }
}
