/** What regeneration writes into each document of a bundle, and that it leaves the rest of it alone. */
module BundleDocuments {
  import opened Common
  import opened PromptText
  import opened PromptPlaces
  import opened BundleIntegrity

  /** These keys are set, and every other is as it was. */
  predicate ChangesOnly(before: Fields, after: Fields, keys: set<string>) {
    after.Keys == before.Keys + keys && forall key :: key in before && key !in keys ==> after[key] == before[key]
  }

  /** What a listed skill says of its folder. */
  predicate TellsFolder(c: Codec, slug: string, files: map<string, Bytes>, skill: Fields) {
    && {"companion_count", "entry_bytes", "entry_sha256", "relative_file_hashes"} <= skill.Keys
    && ENTRY in files
    && skill["companion_count"] == Int(|Seen(slug, files).Keys - {ENTRY}|)
    && skill["entry_bytes"] == Int(|files[ENTRY]|)
    && skill["entry_sha256"] == Str(c.digest(files[ENTRY]))
    && skill["relative_file_hashes"] == Obj(Inventory(c, slug, files))
  }

  predicate SkillTold(c: Codec, before: Json, after: Json, skills: Folders) {
    && IsSkill(before) && IsSkill(after) && Slug(after) == Slug(before) && Slug(before) in skills
    && ChangesOnly(before.fields, after.fields,
                   {"companion_count", "entry_bytes", "entry_sha256", "relative_file_hashes"})
    && TellsFolder(c, Slug(before), skills[Slug(before)], after.fields)
  }

  /** The skills are listed as before, in the same order, each brought up to date with its folder. */
  predicate SkillsTold(c: Codec, before: Fields, after: Fields, skills: Folders) {
    && ListsSkills(Obj(before)) && ListsSkills(Obj(after)) && |Listed(after)| == |Listed(before)|
    && forall k :: 0 <= k < |Listed(before)| ==> SkillTold(c, Listed(before)[k], Listed(after)[k], skills)
  }

  lemma AddedTold(fields: Fields, more: Fields)
    ensures ChangesOnly(fields, fields + more, more.Keys)
    ensures forall key :: key in more ==> (fields + more)[key] == more[key]
  {
  }

  lemma UpdatedTold(c: Codec, skill: Json, skills: Folders)
    requires IsSkill(skill) && HasEntriesIn(skills, {Slug(skill)})
    ensures SkillTold(c, skill, Updated(c, skill, skills), skills)
  {
    hide Seen, Inventory, ChangesOnly;
    var slug := Slug(skill);
    assert slug in {slug};
    UpdatedSkillTells(c, slug, skills[slug]);
    var more := InventoryFields(Inventory(c, slug, skills[slug]));
    assert more.Keys == {"companion_count", "entry_bytes", "entry_sha256", "relative_file_hashes"};
    AddedTold(skill.fields, more);
  }

  lemma WithSkillsTold(c: Codec, doc: Fields, skills: Folders)
    requires ListsSkills(Obj(doc)) && HasEntries(skills) && SetOf(Slugs(Listed(doc))) == skills.Keys
    ensures ChangesOnly(doc, WithSkills(c, doc, skills), {"skills"})
    ensures SkillsTold(c, doc, WithSkills(c, doc, skills), skills)
  {
    hide SkillTold, Updated, Seen;
    MembersAreFolders(Listed(doc), skills);
    forall k | 0 <= k < |Listed(doc)|
      ensures SkillTold(c, Listed(doc)[k], Updated(c, Listed(doc)[k], skills), skills)
    {
      UpdatedTold(c, Listed(doc)[k], skills);
    }
  }

  /** The documents before and after, as they are loaded. */
  lemma DocumentsLoad(c: Codec, b: Bundle)
    requires ParsesBack(c) && Generate(c, b).Generated?
    ensures var files, d, made := Generate(c, b).files, LoadDocs(c, b.root), Made(c, b);
            && files.Keys == {MANIFEST, BASELINE, INTEGRITY, RETRIEVAL, PROMPT, URL_PROMPT} <= b.root.Keys
            && CHILD_REGISTRY in b.root && WellTyped(d, b.skills)
            && (forall name :: name in {MANIFEST, BASELINE, INTEGRITY, RETRIEVAL} ==>
                  IsObject(c, b.root[name]) && IsObject(c, files[name]))
            && Load(c, b.root[MANIFEST]) == d.manifest && Load(c, files[MANIFEST]) == made.manifest
            && Load(c, b.root[BASELINE]) == d.baseline && Load(c, files[BASELINE]) == made.baseline
            && Load(c, b.root[INTEGRITY]) == d.integrity && Load(c, files[INTEGRITY]) == made.integrity
            && Load(c, b.root[RETRIEVAL]) == d.retrieval && Load(c, files[RETRIEVAL]) == made.retrieval
            && files[MANIFEST] == c.pretty(Obj(made.manifest)) && files[BASELINE] == c.pretty(Obj(made.baseline))
  {
    hide Generate, Made, FilesOf, IsPrompt, Prompted, WellTyped;
    GeneratedForm(c, b);
    var made, id := Made(c, b), Generate(c, b).buildId;
    FilesAt(c, made, Prompted(c, b.root[PROMPT], id), Prompted(c, b.root[URL_PROMPT], id));
  }

  /** The document of this name before and after regeneration. */
  function Before(c: Codec, b: Bundle, name: string): Fields {
    if name in b.root && IsObject(c, b.root[name]) then Load(c, b.root[name]) else map[]
  }

  function After(c: Codec, b: Bundle, name: string): Fields
    requires Generate(c, b).Generated?
  {
    var files := Generate(c, b).files;
    if name in files && IsObject(c, files[name]) then Load(c, files[name]) else map[]
  }

  lemma BeforeAndAfter(c: Codec, b: Bundle)
    requires ParsesBack(c) && Generate(c, b).Generated?
    ensures b.root.Keys == ROOT_FILES && Loadable(c, b.root) && WellTyped(LoadDocs(c, b.root), b.skills)
    ensures LoadDocs(c, b.root)
         == Docs(Before(c, b, MANIFEST), Before(c, b, BASELINE), Before(c, b, INTEGRITY), Before(c, b, RETRIEVAL))
    ensures Made(c, b)
         == Docs(After(c, b, MANIFEST), After(c, b, BASELINE), After(c, b, INTEGRITY), After(c, b, RETRIEVAL))
    ensures {MANIFEST, BASELINE} <= Generate(c, b).files.Keys
    ensures Generate(c, b).files[MANIFEST] == c.pretty(Obj(After(c, b, MANIFEST)))
    ensures Generate(c, b).files[BASELINE] == c.pretty(Obj(After(c, b, BASELINE)))
  {
    hide Generate, Made, WellTyped;
    DocumentsLoad(c, b);
    GeneratedForm(c, b);
  }

  /** The manifest: its skills are brought up to date, and nothing else in it changes. */
  lemma ManifestTells(c: Codec, b: Bundle)
    requires ParsesBack(c) && Generate(c, b).Generated?
    ensures ChangesOnly(Before(c, b, MANIFEST), After(c, b, MANIFEST), {"skills"})
    ensures SkillsTold(c, Before(c, b, MANIFEST), After(c, b, MANIFEST), b.skills)
  {
    hide Generate, Before, After, WithSkills, ChangesOnly, SkillsTold, Baselined, Sealed, SourceHashes;
    BeforeAndAfter(c, b);
    WithSkillsTold(c, Before(c, b, MANIFEST), b.skills);
  }

  /** The baseline: every folder's inventory, and the digest of all of it but that digest. */
  lemma BaselineTells(c: Codec, b: Bundle)
    requires ParsesBack(c) && Generate(c, b).Generated?
    ensures var before, after := Before(c, b, BASELINE), After(c, b, BASELINE);
            && ChangesOnly(before, after, {"packages", "baseline_digest"})
            && after["packages"] ==
               Obj(map slug | slug in b.skills :: Obj(map["files" := Obj(Inventory(c, slug, b.skills[slug]))]))
            && after["baseline_digest"] == Str(c.digest(c.canon(Obj(after - {"baseline_digest"}))))
  {
    hide Generate, Before, After, WithSkills, Sealed, SourceHashes, Inventory;
    BeforeAndAfter(c, b);
    BaselinedTells(c, Before(c, b, BASELINE), b.skills);
  }

  lemma BaselinedTells(c: Codec, doc: Fields, skills: Folders)
    ensures var after := Baselined(c, doc, skills);
            && ChangesOnly(doc, after, {"packages", "baseline_digest"})
            && after["packages"] ==
               Obj(map slug | slug in skills :: Obj(map["files" := Obj(Inventory(c, slug, skills[slug]))]))
            && after["baseline_digest"] == Str(c.digest(c.canon(Obj(after - {"baseline_digest"}))))
  {
    hide Inventory;
    var packed, after := doc["packages" := Packages(c, skills)], Baselined(c, doc, skills);
    DigestIgnores(c, packed, "baseline_digest", after["baseline_digest"]);
    assert (map slug | slug in Inventories(c, skills, skills.Keys) ::
              Obj(map["files" := Obj(Inventories(c, skills, skills.Keys)[slug])]))
        == (map slug | slug in skills :: Obj(map["files" := Obj(Inventory(c, slug, skills[slug]))]));
  }

  /**
   * The integrity file: its skills are brought up to date, the three documents it stands on are named by
   * the digests of the files as written, and the build id is the digest of all of it but that id.
   */
  lemma IntegrityTells(c: Codec, b: Bundle)
    requires ParsesBack(c) && Generate(c, b).Generated? && CHILD_REGISTRY in b.root
    ensures var before, after, files := Before(c, b, INTEGRITY), After(c, b, INTEGRITY), Generate(c, b).files;
            && ChangesOnly(before, after, {"skills", "source_hashes", "build_id"})
            && SkillsTold(c, before, after, b.skills)
            && {BASELINE, MANIFEST} <= files.Keys
            && after["source_hashes"] ==
               Obj(map["deployed_baseline" := Str(c.digest(files[BASELINE])),
                       "deployed_child_schema_registry" := Str(c.digest(b.root[CHILD_REGISTRY])),
                       "deployed_manifest" := Str(c.digest(files[MANIFEST]))])
            && after["build_id"] == Str(c.digest(c.canon(Obj(after - {"build_id"}))))
  {
    hide Generate, Before, After, WithSkills, Baselined, Sealed, ChangesOnly, SkillsTold;
    BeforeAndAfter(c, b);
    var before, made := Before(c, b, INTEGRITY), Made(c, b);
    var hashes := SourceHashes(c, made.baseline, b.root[CHILD_REGISTRY], made.manifest);
    WithSkillsTold(c, before, b.skills);
    SealedTells(c, before, WithSkills(c, before, b.skills), hashes, b.skills);
  }

  lemma SealedTells(c: Codec, before: Fields, doc: Fields, hashes: Json, skills: Folders)
    requires ChangesOnly(before, doc, {"skills"}) && SkillsTold(c, before, doc, skills)
    ensures var after := Sealed(c, doc, hashes);
            && ChangesOnly(before, after, {"skills", "source_hashes", "build_id"})
            && SkillsTold(c, before, after, skills)
            && after["source_hashes"] == hashes
            && after["build_id"] == Str(c.digest(c.canon(Obj(after - {"build_id"}))))
  {
    hide SkillTold;
    var hashed, after := doc["source_hashes" := hashes], Sealed(c, doc, hashes);
    DigestIgnores(c, hashed, "build_id", after["build_id"]);
    assert Listed(after) == Listed(doc);
  }

  /** The retrieval index takes the build id of the integrity file, and nothing else in it changes. */
  lemma RetrievalTells(c: Codec, b: Bundle)
    requires ParsesBack(c) && Generate(c, b).Generated?
    ensures var before, after := Before(c, b, RETRIEVAL), After(c, b, RETRIEVAL);
            && ChangesOnly(before, after, {"build_id"}) && "build_id" in After(c, b, INTEGRITY)
            && after["build_id"] == After(c, b, INTEGRITY)["build_id"] == Str(Generate(c, b).buildId)
  {
    hide Generate, Before, After, WithSkills, Baselined, Sealed, SourceHashes;
    BeforeAndAfter(c, b);
    GeneratedForm(c, b);
  }

  /** A prompt: the digits at its one build id are replaced by the new id, and nothing else in it changes. */
  lemma PromptTells(c: Codec, b: Bundle, name: string) returns (k: nat)
    requires ReadsBack(c) && DigestsAreIds(c) && Generate(c, b).Generated? && name in {PROMPT, URL_PROMPT}
    ensures name in b.root && name in Generate(c, b).files
    ensures c.decode(b.root[name]).Some? && c.decode(Generate(c, b).files[name]).Some?
    ensures var before, after := c.decode(b.root[name]).value, c.decode(Generate(c, b).files[name]).value;
            && PlaceAt(before, k) && (forall j: nat :: PlaceAt(before, j) ==> j == k)
            && after == ReplacedAt(before, k, Generate(c, b).buildId)
  {
    hide Generate, WellTyped, Loadable, LoadDocs, MatchCount, Substituted, FilesOf, IsBuildId, PlaceAt, ReplacedAt;
    GeneratedForm(c, b);
    BuildIdIsDigest(c, b);
    var id, text := Generate(c, b).buildId, c.decode(b.root[name]).value;
    FilesAt(c, Made(c, b), Prompted(c, b.root[PROMPT], id), Prompted(c, b.root[URL_PROMPT], id));
    SubstitutedFree(text, id, CARRIAGE_RETURN);
    OneCounted(text);
    k :| PlaceAt(text, k);
    OnlyOneReplaced(text, id, k);
    assert c.decode(c.encode(Substituted(text, id))) == Some(Substituted(text, id));
  }
}
