/**
 * Repointing activity links when contacts merge (activity/src/activity/activity.service.ts:301-368): the loop over
 * the sources amounts to one substitution on the links of the project's live activities.
 */
module ActivityMerge {
  import Text

  datatype Link = Link(entityType: string, entityId: string, nameSnapshot: string, orphaned: bool)

  datatype Doc = Doc(projectId: string, deleted: bool, links: seq<Link>)

  /** What a link points at. */
  datatype Ref = Ref(entityType: string, entityId: string)

  function RefOf(l: Link): Ref {
    Ref(l.entityType, l.entityId)
  }

  function Refs(links: seq<Link>): seq<Ref> {
    seq(|links|, i requires 0 <= i < |links| => RefOf(links[i]))
  }

  /** Name resolution may change snapshots and orphan flags, not what the links point at nor their order. */
  ghost predicate KeepsRefs(resolve: seq<Link> -> seq<Link>) {
    forall links :: Refs(resolve(links)) == Refs(links)
  }

  function ContactRef(id: string): Ref {
    Ref("contact", id)
  }

  predicate LinksContact(links: seq<Link>, id: string) {
    exists i :: 0 <= i < |links| && RefOf(links[i]) == ContactRef(id)
  }

  /** `$elemMatch` on a live document of the project. */
  predicate Affected(doc: Doc, projectId: string, source: string) {
    doc.projectId == projectId && !doc.deleted && LinksContact(doc.links, source)
  }

  function Repointed(links: seq<Link>, source: string, target: string): seq<Link> {
    seq(|links|, i requires 0 <= i < |links| =>
      if RefOf(links[i]) == ContactRef(source)
      then links[i].(entityId := target, nameSnapshot := "", orphaned := false)
      else links[i])
  }

  /** A merge: the project, the surviving contact, and the name resolver. */
  datatype Merge = Merge(projectId: string, target: string, resolve: seq<Link> -> seq<Link>)

  function Rewritten(doc: Doc, m: Merge, source: string): Doc {
    if Affected(doc, m.projectId, source) then doc.(links := m.resolve(Repointed(doc.links, source, m.target))) else doc
  }

  function RewrittenFor(doc: Doc, m: Merge, sources: seq<string>): Doc {
    if sources == [] then doc else Rewritten(RewrittenFor(doc, m, sources[..|sources| - 1]), m, sources[|sources| - 1])
  }

  function AllRewritten(docs: seq<Doc>, m: Merge, sources: seq<string>): seq<Doc> {
    seq(|docs|, i requires 0 <= i < |docs| => RewrittenFor(docs[i], m, sources))
  }

  function CountAffected(docs: seq<Doc>, projectId: string, source: string): nat {
    if docs == [] then 0
    else CountAffected(docs[..|docs| - 1], projectId, source)
         + if Affected(docs[|docs| - 1], projectId, source) then 1 else 0
  }

  /** The pairs of an activity and a merged contact it links, counted before anything is rewritten. */
  function CountPairs(docs: seq<Doc>, projectId: string, sources: seq<string>): nat {
    if sources == [] then 0
    else CountPairs(docs, projectId, sources[..|sources| - 1]) + CountAffected(docs, projectId, sources[|sources| - 1])
  }

  /** Adding a source, or an activity, adds the pairs it brings. */
  lemma {:induction false} PairsAddUp(docs: seq<Doc>, doc: Doc, projectId: string, sources: seq<string>)
    ensures CountPairs(docs + [doc], projectId, sources)
            == CountPairs(docs, projectId, sources) + |Linked(doc, projectId, sources)|
    ensures CountPairs([], projectId, sources) == 0
  {
    if sources != [] {
      var n := |sources| - 1;
      PairsAddUp(docs, doc, projectId, sources[..n]);
      assert (docs + [doc])[..|docs|] == docs;
    }
  }

  /** The sources that a live activity of the project links, in their order. */
  function Linked(doc: Doc, projectId: string, sources: seq<string>): seq<string> {
    if sources == [] || doc.projectId != projectId || doc.deleted then []
    else
      var n := |sources| - 1;
      Linked(doc, projectId, sources[..n]) + if LinksContact(doc.links, sources[n]) then [sources[n]] else []
  }

  lemma {:induction false} LinkedMeans(doc: Doc, projectId: string, sources: seq<string>, s: string)
    ensures s in Linked(doc, projectId, sources) <==>
            s in sources && doc.projectId == projectId && !doc.deleted
            && exists i :: 0 <= i < |doc.links| && doc.links[i].entityType == "contact" && doc.links[i].entityId == s
  {
    if sources != [] {
      var n := |sources| - 1;
      LinkedMeans(doc, projectId, sources[..n], s);
      assert s in sources <==> s in sources[..n] || s == sources[n];
      assert LinksContact(doc.links, s) <==>
             exists i :: 0 <= i < |doc.links| && doc.links[i].entityType == "contact" && doc.links[i].entityId == s;
    }
  }

  /** A repointed link forgets the old name and is no orphan; every other link is left as it is. */
  lemma RepointedLinks(links: seq<Link>, source: string, target: string, i: nat)
    requires i < |links|
    ensures Repointed(links, source, target)[i] ==
            if links[i].entityType == "contact" && links[i].entityId == source then Link("contact", target, "", false)
            else links[i]
  {
  }

  // ---------------------------------------------------------------- one substitution

  function Substituted(r: Ref, sources: set<string>, target: string): Ref {
    if r.entityType == "contact" && r.entityId in sources then ContactRef(target) else r
  }

  function SubstitutedAll(rs: seq<Ref>, sources: set<string>, target: string): seq<Ref> {
    seq(|rs|, i requires 0 <= i < |rs| => Substituted(rs[i], sources, target))
  }

  function Elements(xs: seq<string>): set<string> {
    set x | x in xs
  }

  /** What the loop is meant to achieve for one activity. */
  ghost predicate IsMerged(doc: Doc, new_: Doc, m: Merge, sources: set<string>) {
    && new_.projectId == doc.projectId && new_.deleted == doc.deleted
    && (if doc.projectId == m.projectId && !doc.deleted
        then Refs(new_.links) == SubstitutedAll(Refs(doc.links), sources, m.target)
        else new_ == doc)
    && ((forall s :: s in sources ==> !LinksContact(doc.links, s)) ==> new_ == doc)
  }

  lemma LinksContactByRefs(links: seq<Link>, id: string)
    ensures LinksContact(links, id) <==> ContactRef(id) in Refs(links)
  {
    if ContactRef(id) in Refs(links) {
      var i :| 0 <= i < |links| && Refs(links)[i] == ContactRef(id);
      assert RefOf(links[i]) == ContactRef(id);
    }
    if LinksContact(links, id) {
      var i :| 0 <= i < |links| && RefOf(links[i]) == ContactRef(id);
      assert Refs(links)[i] == ContactRef(id);
    }
  }

  lemma StepSubstitutes(doc: Doc, m: Merge, source: string)
    requires KeepsRefs(m.resolve)
    ensures IsMerged(doc, Rewritten(doc, m, source), m, {source})
  {
    var new_ := Rewritten(doc, m, source);
    if Affected(doc, m.projectId, source) {
      assert Refs(new_.links) == Refs(Repointed(doc.links, source, m.target));
      assert Refs(Repointed(doc.links, source, m.target)) == SubstitutedAll(Refs(doc.links), {source}, m.target);
    } else if doc.projectId == m.projectId && !doc.deleted {
      LinksContactByRefs(doc.links, source);
      forall i | 0 <= i < |doc.links|
        ensures Substituted(Refs(doc.links)[i], {source}, m.target) == Refs(doc.links)[i]
      {
        assert Refs(doc.links)[i] in Refs(doc.links);
      }
      assert SubstitutedAll(Refs(doc.links), {source}, m.target) == Refs(doc.links);
    }
  }

  lemma SubstitutionsCompose(rs: seq<Ref>, before: set<string>, source: string, target: string)
    requires target !in before && target != source
    ensures SubstitutedAll(SubstitutedAll(rs, before, target), {source}, target)
            == SubstitutedAll(rs, before + {source}, target)
  {
  }

  /** A link to a contact that is not the target survives a substitution of other contacts, and none appears. */
  lemma OtherContactsStay(rs: seq<Ref>, before: set<string>, target: string, id: string)
    requires id !in before && id != target
    ensures ContactRef(id) in SubstitutedAll(rs, before, target) <==> ContactRef(id) in rs
  {
    var new_ := SubstitutedAll(rs, before, target);
    if ContactRef(id) in rs {
      var i :| 0 <= i < |rs| && rs[i] == ContactRef(id);
      assert new_[i] == ContactRef(id);
    }
    if ContactRef(id) in new_ {
      var i :| 0 <= i < |rs| && new_[i] == ContactRef(id);
      assert rs[i] == ContactRef(id);
    }
  }

  predicate Distinct(xs: seq<string>) {
    forall i, j :: 0 <= i < j < |xs| ==> xs[i] != xs[j]
  }

  lemma LastIsNew(sources: seq<string>)
    requires sources != [] && Distinct(sources)
    ensures var n := |sources| - 1;
            Distinct(sources[..n]) && sources[n] !in Elements(sources[..n])
            && Elements(sources) == Elements(sources[..n]) + {sources[n]}
  {
    var n := |sources| - 1;
    assert sources == sources[..n] + [sources[n]];
    assert forall x :: x in sources <==> x in sources[..n] || x == sources[n];
  }

  lemma {:induction false} LoopSubstitutes(doc: Doc, m: Merge, sources: seq<string>)
    requires KeepsRefs(m.resolve) && Distinct(sources) && m.target !in sources
    ensures IsMerged(doc, RewrittenFor(doc, m, sources), m, Elements(sources))
    decreases |sources|
  {
    if sources == [] {
      assert SubstitutedAll(Refs(doc.links), Elements([]), m.target) == Refs(doc.links);
    } else {
      var n := |sources| - 1;
      var mid, before := RewrittenFor(doc, m, sources[..n]), Elements(sources[..n]);
      LastIsNew(sources);
      assert m.target !in sources[..n] && sources[n] in sources;
      LoopSubstitutes(doc, m, sources[..n]);
      StepSubstitutes(mid, m, sources[n]);
      SubstitutionsCompose(Refs(doc.links), before, sources[n], m.target);
      if forall s :: s in Elements(sources) ==> !LinksContact(doc.links, s) {
        assert sources[n] in Elements(sources) && forall s :: s in before ==> s in Elements(sources);
        assert mid == doc;
      }
    }
  }

  /** Whether the next source affects an activity does not depend on the sources before it. */
  lemma AffectedAsBefore(doc: Doc, m: Merge, before: seq<string>, source: string)
    requires KeepsRefs(m.resolve) && Distinct(before) && m.target !in before && source !in before && source != m.target
    ensures Affected(RewrittenFor(doc, m, before), m.projectId, source) <==> Affected(doc, m.projectId, source)
  {
    var mid := RewrittenFor(doc, m, before);
    LoopSubstitutes(doc, m, before);
    LinksContactByRefs(doc.links, source);
    LinksContactByRefs(mid.links, source);
    OtherContactsStay(Refs(doc.links), Elements(before), m.target, source);
  }

  lemma {:induction false} CountAsBefore(docs: seq<Doc>, m: Merge, before: seq<string>, source: string)
    requires KeepsRefs(m.resolve) && Distinct(before) && m.target !in before && source !in before && source != m.target
    ensures CountAffected(AllRewritten(docs, m, before), m.projectId, source)
            == CountAffected(docs, m.projectId, source)
    decreases |docs|
  {
    if docs != [] {
      var n := |docs| - 1;
      CountAsBefore(docs[..n], m, before, source);
      AffectedAsBefore(docs[n], m, before, source);
      assert AllRewritten(docs, m, before)[..n] == AllRewritten(docs[..n], m, before);
    }
  }

  // ---------------------------------------------------------------- the sources of a request

  /** The trimmed, non-empty, distinct ids other than the target. */
  method CleanSources(ids: seq<string>, target: string) returns (sources: seq<string>)
    ensures Distinct(sources)
    ensures forall s :: s in sources <==> s != "" && s != target && exists i :: 0 <= i < |ids| && Text.Trim(ids[i]) == s
  {
    sources := [];
    for k := 0 to |ids|
      invariant Distinct(sources)
      invariant forall s :: s in sources <==> s != "" && s != target && exists i :: 0 <= i < k && Text.Trim(ids[i]) == s
    {
      var id := Text.Trim(ids[k]);
      if id != "" && id != target && id !in sources {
        sources := sources + [id];
      }
    }
  }

  class MergeStore {
    var docs: seq<Doc>

    /** One source: every affected activity is repointed, re-resolved and counted. */
    method RewriteSource(m: Merge, source: string) returns (moved: nat)
      modifies this
      ensures |docs| == old(|docs|) && forall i :: 0 <= i < |docs| ==> docs[i] == Rewritten(old(docs)[i], m, source)
      ensures moved == CountAffected(old(docs), m.projectId, source)
    {
      moved := 0;
      for i := 0 to |docs|
        invariant |docs| == |old(docs)| && moved == CountAffected(old(docs)[..i], m.projectId, source)
        invariant forall j :: 0 <= j < |docs| ==>
            docs[j] == if j < i then Rewritten(old(docs)[j], m, source) else old(docs)[j]
      {
        assert old(docs)[..i + 1][..i] == old(docs)[..i];
        if Affected(docs[i], m.projectId, source) {
          var next := Repointed(docs[i].links, source, m.target);
          docs := docs[i := docs[i].(links := m.resolve(next))];
          moved := moved + 1;
        }
      }
      assert old(docs)[..|docs|] == old(docs);
    }

    method RewriteContactLinksOnMerge(projectId: string, ids: seq<string>, targetId: string,
                                      resolve: seq<Link> -> seq<Link>)
      returns (moved: nat, ghost sources: seq<string>)
      requires KeepsRefs(resolve)
      modifies this
      ensures Distinct(sources) && Text.Trim(targetId) !in sources
      ensures forall s :: s in sources <==>
              s != "" && s != Text.Trim(targetId)
              && exists i :: 0 <= i < |ids| && Text.Trim(ids[i]) == s
      ensures projectId == "" || Text.Trim(targetId) == "" ==> moved == 0 && docs == old(docs)
      ensures projectId != "" && Text.Trim(targetId) != "" ==>
                && docs == AllRewritten(old(docs), Merge(projectId, Text.Trim(targetId), resolve), sources)
                && moved == CountPairs(old(docs), projectId, sources)
    {
      var target := Text.Trim(targetId);
      var m := Merge(projectId, target, resolve);
      var clean := CleanSources(ids, target);
      sources := clean;
      if projectId == "" || target == "" || clean == [] {
        assert AllRewritten(docs, m, []) == docs;
        return 0, clean;
      }
      moved := 0;
      assert AllRewritten(docs, m, []) == docs;
      for k := 0 to |clean|
        invariant docs == AllRewritten(old(docs), m, clean[..k])
        invariant moved == CountPairs(old(docs), projectId, clean[..k])
      {
        assert clean[..k + 1][..k] == clean[..k];
        assert clean[k] in clean && forall x :: x in clean[..k] ==> x in clean;
        CountAsBefore(old(docs), m, clean[..k], clean[k]);
        var n := RewriteSource(m, clean[k]);
        assert docs == AllRewritten(old(docs), m, clean[..k + 1]);
        moved := moved + n;
      }
      assert clean[..|clean|] == clean;
    }
  }

  // ---------------------------------------------------------------- what a merge achieves

  /**
   * No live activity of the project links a merged contact any more; every other link keeps its place, type and
   * id; other projects, the trash, and activities without such a link are untouched.
   */
  lemma MergeRepointsExactlyTheSources(docs: seq<Doc>, m: Merge, sources: seq<string>, k: nat)
    requires KeepsRefs(m.resolve) && Distinct(sources) && m.target !in sources && k < |docs|
    ensures var new_ := AllRewritten(docs, m, sources)[k];
            && IsMerged(docs[k], new_, m, Elements(sources))
            && |new_.links| == |docs[k].links|
            && (docs[k].projectId == m.projectId && !docs[k].deleted
               ==> forall s :: s in sources ==> !LinksContact(new_.links, s))
  {
    var doc, new_ := docs[k], AllRewritten(docs, m, sources)[k];
    LoopSubstitutes(doc, m, sources);
    if doc.projectId == m.projectId && !doc.deleted {
      assert |Refs(new_.links)| == |Refs(doc.links)|;
      forall s | s in sources ensures !LinksContact(new_.links, s) {
        LinksContactByRefs(new_.links, s);
        var rs := SubstitutedAll(Refs(doc.links), Elements(sources), m.target);
        assert forall i :: 0 <= i < |rs| ==> rs[i] != ContactRef(s);
      }
    }
  }

  /** The order of the sources does not matter to what is linked where. */
  lemma SourceOrderDoesNotMatter(docs: seq<Doc>, m: Merge, sources: seq<string>, others: seq<string>, k: nat)
    requires KeepsRefs(m.resolve) && Distinct(sources) && Distinct(others) && m.target !in sources && k < |docs|
    requires forall s :: s in sources <==> s in others
    ensures Refs(AllRewritten(docs, m, sources)[k].links) == Refs(AllRewritten(docs, m, others)[k].links)
  {
    assert Elements(sources) == Elements(others);
    LoopSubstitutes(docs[k], m, sources);
    LoopSubstitutes(docs[k], m, others);
  }

  lemma {:induction false} NothingAffected(docs: seq<Doc>, projectId: string, source: string)
    requires forall k :: 0 <= k < |docs| ==> !Affected(docs[k], projectId, source)
    ensures CountAffected(docs, projectId, source) == 0
  {
    if docs != [] {
      NothingAffected(docs[..|docs| - 1], projectId, source);
    }
  }

  lemma {:induction false} NoPairs(docs: seq<Doc>, projectId: string, sources: seq<string>)
    requires forall k, s :: 0 <= k < |docs| && s in sources ==> !Affected(docs[k], projectId, s)
    ensures CountPairs(docs, projectId, sources) == 0
    decreases |sources|
  {
    if sources != [] {
      var s := sources[|sources| - 1];
      assert s in sources;
      forall k, x | 0 <= k < |docs| && x in sources[..|sources| - 1] ensures !Affected(docs[k], projectId, x) {
        assert x in sources;
      }
      NoPairs(docs, projectId, sources[..|sources| - 1]);
      NothingAffected(docs, projectId, s);
    }
  }

  /** A redelivered merge finds nothing to move and changes nothing. */
  lemma SecondRunMovesNothing(docs: seq<Doc>, m: Merge, sources: seq<string>)
    requires KeepsRefs(m.resolve) && Distinct(sources) && m.target !in sources
    ensures var once := AllRewritten(docs, m, sources);
            CountPairs(once, m.projectId, sources) == 0 && AllRewritten(once, m, sources) == once
  {
    var once := AllRewritten(docs, m, sources);
    forall k, s | 0 <= k < |docs| && s in sources ensures !Affected(once[k], m.projectId, s) {
      MergeRepointsExactlyTheSources(docs, m, sources, k);
    }
    NoPairs(once, m.projectId, sources);
    forall k | 0 <= k < |docs| ensures AllRewritten(once, m, sources)[k] == once[k] {
      UnaffectedStays(once[k], m, sources);
    }
  }

  lemma {:induction false} UnaffectedStays(doc: Doc, m: Merge, sources: seq<string>)
    requires forall s :: s in sources ==> !Affected(doc, m.projectId, s)
    ensures RewrittenFor(doc, m, sources) == doc
    decreases |sources|
  {
    if sources != [] {
      assert sources[|sources| - 1] in sources && forall x :: x in sources[..|sources| - 1] ==> x in sources;
      UnaffectedStays(doc, m, sources[..|sources| - 1]);
    }
  }
}
