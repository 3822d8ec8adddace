/**
 * What a check of the bundle answers to: any edit of a tracked file, and when there is anything to check.
 */
module BundleChecks {
  import opened Common
  import opened PromptText
  import opened PromptPlaces
  import opened BundleIntegrity

  // ----- Any edit is reported -----

  ghost predicate Passes(c: Codec, b: Bundle) {
    Generate(c, b).Generated? && Stale(b, Generate(c, b).files) == {}
  }

  /** The bundle with one file of one skill written, added or overwritten. */
  function Edited(b: Bundle, slug: string, path: string, data: Bytes): Bundle
    requires slug in b.skills
  {
    b.(skills := b.skills[slug := b.skills[slug][path := data]])
  }

  /** Writing other bytes to any tracked file of a passing bundle, or adding one, makes the check fail. */
  lemma EditReported(c: Codec, b: Bundle, slug: string, parts: seq<string>, data: Bytes)
    requires ParsesBack(c) && CollisionFree(c) && Passes(c, b) && slug in b.skills
    requires AreComponents(parts) && Tracked(slug, parts)
    requires JoinSlash(parts) in b.skills[slug] ==> b.skills[slug][JoinSlash(parts)] != data
    ensures !Passes(c, Edited(b, slug, JoinSlash(parts), data))
  {
    hide Generate, Stale, Tracked;
    var e := Edited(b, slug, JoinSlash(parts), data);
    if Passes(c, e) {
      CheckCatchesEveryEdit(c, b, e);
    }
  }

  // ----- When anything is generated at all -----

  /** A document that lists skills, each an object with a text for its folder. */
  predicate ListsFolders(doc: Fields) {
    "skills" in doc && doc["skills"].Arr? && forall k :: 0 <= k < |doc["skills"].items| ==>
      var skill := doc["skills"].items[k];
      skill.Obj? && "folder_slug" in skill.fields && skill.fields["folder_slug"].Str?
  }

  function FolderAt(doc: Fields, k: nat): string
    requires ListsFolders(doc) && k < |doc["skills"].items|
  {
    doc["skills"].items[k].fields["folder_slug"].chars
  }

  /** The document lists exactly these folders, none twice. */
  ghost predicate ListsEach(doc: Fields, folders: set<string>)
    requires ListsFolders(doc)
  {
    && (forall i, j :: 0 <= i < j < |doc["skills"].items| ==> FolderAt(doc, i) != FolderAt(doc, j))
    && (forall k :: 0 <= k < |doc["skills"].items| ==> FolderAt(doc, k) in folders)
    && (forall slug :: slug in folders ==> exists k :: 0 <= k < |doc["skills"].items| && FolderAt(doc, k) == slug)
  }

  lemma ListsFoldersExactly(doc: Fields)
    ensures ListsFolders(doc) <==> ListsSkills(Obj(doc))
  {
  }

  lemma ListsEachExactly(doc: Fields, folders: set<string>)
    requires ListsFolders(doc)
    ensures ListsEach(doc, folders) <==> Distinct(Slugs(Listed(doc))) && SetOf(Slugs(Listed(doc))) == folders
  {
    var slugs := Slugs(Listed(doc));
    assert forall k :: 0 <= k < |slugs| ==> slugs[k] == FolderAt(doc, k);
    if ListsEach(doc, folders) {
      forall slug ensures slug in SetOf(slugs) <==> slug in folders {
        if slug in folders {
          var k :| 0 <= k < |doc["skills"].items| && FolderAt(doc, k) == slug;
          assert slugs[k] == slug;
        }
      }
    }
    if Distinct(slugs) && SetOf(slugs) == folders {
      forall k | 0 <= k < |slugs| ensures FolderAt(doc, k) in folders { assert slugs[k] in SetOf(slugs); }
      forall slug | slug in folders ensures exists k :: 0 <= k < |slugs| && FolderAt(doc, k) == slug {
        var k :| 0 <= k < |slugs| && slugs[k] == slug;
        assert FolderAt(doc, k) == slug;
      }
    }
  }

  lemma EntriesExactly(skills: Folders)
    ensures HasEntries(skills) <==> forall slug :: slug in skills ==> ENTRY in skills[slug] && slug != "__pycache__"
  {
    forall slug | slug in skills
      ensures ENTRY in Seen(slug, skills[slug]) <==> ENTRY in skills[slug] && slug != "__pycache__"
    {
      var parts := [ENTRY];
      assert AreComponents(parts) && JoinSlash(parts) == ENTRY;
      TrackedExactly(slug, parts);
      EntryTracked(slug);
    }
  }

  lemma EntryTracked(slug: string)
    ensures Tracked(slug, [ENTRY]) <==> slug != "__pycache__"
  {
    CompiledExactly(ENTRY);
    assert ENTRY[|ENTRY| - 4..] == "L.md";
    assert ENTRY != "__pycache__" by { assert |ENTRY| == 8 && |"__pycache__"| == 11; }
  }

  ghost predicate IsObjectFile(c: Codec, b: Bundle, name: string) {
    name in b.root && c.parse(b.root[name]).Some? && c.parse(b.root[name]).value.Obj?
  }

  ghost predicate CarriesOneId(c: Codec, b: Bundle, name: string) {
    name in b.root && c.decode(b.root[name]).Some? && OnePlace(c.decode(b.root[name]).value)
  }

  /** A document of the bundle lists the skill folders, each once. */
  ghost predicate ListsFoldersOf(c: Codec, b: Bundle, name: string) {
    IsObjectFile(c, b, name) &&
    var doc := c.parse(b.root[name]).value.fields;
    ListsFolders(doc) && ListsEach(doc, b.skills.Keys)
  }

  /**
   * When the bundle's files can be generated: the root holds the twelve files, the four documents are
   * objects, manifest and integrity file list exactly the skill folders, each folder has its entry file,
   * and each prompt carries one build id.
   */
  lemma GeneratedExactly(c: Codec, b: Bundle)
    ensures Generate(c, b).Generated? <==>
      && b.root.Keys == ROOT_FILES
      && (forall name :: name in {MANIFEST, BASELINE, INTEGRITY, RETRIEVAL} ==> IsObjectFile(c, b, name))
      && ListsFoldersOf(c, b, MANIFEST) && ListsFoldersOf(c, b, INTEGRITY)
      && (forall slug :: slug in b.skills ==> ENTRY in b.skills[slug] && slug != "__pycache__")
      && (forall name :: name in {PROMPT, URL_PROMPT} ==> CarriesOneId(c, b, name))
  {
    hide ListsFoldersOf, ListsSkills, SameMembers, HasEntries, Rebuilt, IsPrompt, Prompted, FilesOf, Loadable,
         IsObjectFile, CarriesOneId;
    EntriesExactly(b.skills);
    if b.root.Keys == ROOT_FILES {
      LoadableExactly(c, b);
      PromptsExactly(c, b);
      if Loadable(c, b.root) { DocumentsExactly(c, b); }
    }
  }

  lemma LoadableExactly(c: Codec, b: Bundle)
    requires b.root.Keys == ROOT_FILES
    ensures Loadable(c, b.root) <==>
      forall name :: name in {MANIFEST, BASELINE, INTEGRITY, RETRIEVAL} ==> IsObjectFile(c, b, name)
  {
    assert {MANIFEST, BASELINE, INTEGRITY, RETRIEVAL} <= ROOT_FILES;
    if Loadable(c, b.root) {
      assert IsObject(c, b.root[MANIFEST]) && IsObject(c, b.root[BASELINE]);
      assert IsObject(c, b.root[INTEGRITY]) && IsObject(c, b.root[RETRIEVAL]);
    }
    if forall name :: name in {MANIFEST, BASELINE, INTEGRITY, RETRIEVAL} ==> IsObjectFile(c, b, name) {
      assert IsObjectFile(c, b, MANIFEST) && IsObjectFile(c, b, BASELINE);
      assert IsObjectFile(c, b, INTEGRITY) && IsObjectFile(c, b, RETRIEVAL);
    }
  }

  lemma PromptsExactly(c: Codec, b: Bundle)
    requires b.root.Keys == ROOT_FILES
    ensures IsPrompt(c, b.root[PROMPT]) && IsPrompt(c, b.root[URL_PROMPT]) <==>
      forall name :: name in {PROMPT, URL_PROMPT} ==> CarriesOneId(c, b, name)
  {
    hide MatchCount, OnePlace;
    forall name | name in {PROMPT, URL_PROMPT} ensures CarriesOneId(c, b, name) <==> IsPrompt(c, b.root[name]) {
      if c.decode(b.root[name]).Some? { OneCounted(c.decode(b.root[name]).value); }
    }
    if forall name :: name in {PROMPT, URL_PROMPT} ==> CarriesOneId(c, b, name) {
      assert CarriesOneId(c, b, PROMPT) && CarriesOneId(c, b, URL_PROMPT);
    }
  }

  lemma DocumentsExactly(c: Codec, b: Bundle)
    requires b.root.Keys == ROOT_FILES && Loadable(c, b.root)
    ensures var d := LoadDocs(c, b.root);
            (ListsSkills(Obj(d.manifest)) && ListsSkills(Obj(d.integrity))
             && SameMembers(Listed(d.manifest), Listed(d.integrity), b.skills.Keys)
             <==> ListsFoldersOf(c, b, MANIFEST) && ListsFoldersOf(c, b, INTEGRITY))
  {
    hide ListsFolders, ListsEach, ListsSkills, SameMembers;
    MembersExactly(LoadDocs(c, b.root), b.skills.Keys);
  }

  lemma MembersExactly(d: Docs, folders: set<string>)
    ensures ListsSkills(Obj(d.manifest)) && ListsSkills(Obj(d.integrity))
              && SameMembers(Listed(d.manifest), Listed(d.integrity), folders)
       <==> ListsFolders(d.manifest) && ListsFolders(d.integrity)
              && ListsEach(d.manifest, folders) && ListsEach(d.integrity, folders)
  {
    hide ListsEach, Distinct, SetOf, Slugs;
    ListsFoldersExactly(d.manifest);
    ListsFoldersExactly(d.integrity);
    if ListsFolders(d.manifest) { ListsEachExactly(d.manifest, folders); }
    if ListsFolders(d.integrity) { ListsEachExactly(d.integrity, folders); }
  }
}
