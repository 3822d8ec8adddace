/**
 * The integrity identity of a methodology bundle: inventories of every skill folder written into
 * the manifest, the baseline and the integrity file, a chain of digests over them, and the build
 * id that the retrieval index and the prompts carry.
 */
module BundleIntegrity {
  import opened Common
  import opened PromptText

  type Bytes = seq<Byte>

  datatype Json =
    | Null
    | Bool(flag: bool)
    | Int(value: int)
    | Real(text: string)
    | Str(chars: string)
    | Arr(items: seq<Json>)
    | Obj(fields: map<string, Json>)

  type Fields = map<string, Json>

  /** What the program takes from its libraries. */
  datatype Codec = Codec(
    pretty: Json -> Bytes,
    canon: Json -> Bytes,
    parse: Bytes -> Option<Json>,
    encode: string -> Bytes,
    decode: Bytes -> Option<string>,
    digest: Bytes -> string)

  const CARRIAGE_RETURN := '\r'

  /** Both JSON spellings parse back. */
  ghost predicate ParsesBack(c: Codec) {
    && (forall v {:trigger c.pretty(v)} :: c.parse(c.pretty(v)) == Some(v))
    && (forall v {:trigger c.canon(v)} :: c.parse(c.canon(v)) == Some(v))
  }

  /** Text written is text read, and reading as text leaves no carriage return. */
  ghost predicate ReadsBack(c: Codec) {
    && (forall t {:trigger c.encode(t)} :: CARRIAGE_RETURN !in t ==> c.decode(c.encode(t)) == Some(t))
    && (forall b {:trigger c.decode(b)} :: c.decode(b).Some? ==> CARRIAGE_RETURN !in c.decode(b).value)
  }

  /** A digest is sixty-four hexadecimal digits. */
  ghost predicate DigestsAreIds(c: Codec) {
    forall b {:trigger c.digest(b)} :: IsBuildId(c.digest(b))
  }

  /** Never assumed together with DigestsAreIds: there are more byte strings than ids. */
  ghost predicate CollisionFree(c: Codec) {
    forall x, y :: c.digest(x) == c.digest(y) ==> x == y
  }

  /** The files of each skill folder, by their path inside it. */
  type Folders = map<string, map<string, Bytes>>

  /** The files at the root, and the skill folders. */
  datatype Bundle = Bundle(root: map<string, Bytes>, skills: Folders)

  const MANIFEST := "DEPLOY_V_MANIFEST.json"
  const BASELINE := "DEPLOY_V_BASELINE.json"
  const INTEGRITY := "DEPLOY_V_INTEGRITY_v1.json"
  const RETRIEVAL := "CP_DEPLOY_V_RETRIEVAL_INDEX_v1.json"
  const CHILD_REGISTRY := "CP_DEPLOY_V_CHILD_SCHEMA_REGISTRY_v1.json"
  const PROMPT := "DEPLOY_V_COPILOT_MEMORY_PROMPT.md"
  const URL_PROMPT := "DEPLOY_V_COPILOT_MEMORY_PROMPT_URL_BOUND.md"

  const ROOT_FILES: set<string> := {
    "CANON_SHARED.md", CHILD_REGISTRY, "CP_DEPLOY_V_EXECUTION_PROFILES_v1.json",
    "CP_DEPLOY_V_LITE_MODULE_PAYLOAD_BASE_v1.schema.txt", RETRIEVAL, "CP_MODULE_PAYLOAD_BASE.schema.txt",
    BASELINE, PROMPT, URL_PROMPT, INTEGRITY, MANIFEST, "README.md"
  }

  const ENTRY := "SKILL.md"

  // ----- Inventories -----

  function Parts(path: string): (r: seq<string>)
    ensures r != []
  {
    if path == "" then [""]
    else if path[0] == '/' then [""] + Parts(path[1..])
    else var rest := Parts(path[1..]); [[path[0]] + rest[0]] + rest[1..]
  }

  /** Compiled Python and its caches are not inventoried. */
  predicate Ignored(slug: string, path: string) {
    var parts := [slug] + Parts(path);
    var name := parts[|parts| - 1];
    "__pycache__" in parts || (|name| > 4 && name[|name| - 4..] == ".pyc")
  }

  function Seen(slug: string, files: map<string, Bytes>): map<string, Bytes> {
    map path | path in files && !Ignored(slug, path) :: files[path]
  }

  function Entry(c: Codec, data: Bytes): Json {
    Obj(map["bytes" := Int(|data|), "sha256" := Str(c.digest(data))])
  }

  function Inventory(c: Codec, slug: string, files: map<string, Bytes>): Fields {
    map path | path in Seen(slug, files) :: Entry(c, Seen(slug, files)[path])
  }

  method FileInventory(c: Codec, slug: string, files: map<string, Bytes>) returns (inventory: Fields)
    ensures inventory == Inventory(c, slug, files)
  {
    inventory := map[];
    var todo := files.Keys;
    while todo != {}
      invariant todo <= files.Keys
      invariant inventory == map path | path in Seen(slug, files) && path !in todo :: Entry(c, Seen(slug, files)[path])
      decreases |todo|
    {
      var path :| path in todo;
      todo := todo - {path};
      if !Ignored(slug, path) {
        inventory := inventory[path := Entry(c, files[path])];
      }
    }
  }

  /** The inventories of some folders. */
  function Inventories(c: Codec, skills: Folders, slugs: set<string>): map<string, Fields>
    requires slugs <= skills.Keys
  {
    map slug | slug in slugs :: Inventory(c, slug, skills[slug])
  }

  lemma NoInventories(c: Codec, skills: Folders)
    ensures Inventories(c, skills, {}) == map[]
  {
  }

  lemma OneMoreInventory(c: Codec, skills: Folders, slugs: set<string>, slug: string)
    requires slugs <= skills.Keys && slug in skills
    ensures Inventories(c, skills, slugs)[slug := Inventory(c, slug, skills[slug])]
         == Inventories(c, skills, slugs + {slug})
  {
    hide Inventory;
  }

  // ----- Skills as the manifest and the integrity file list them -----

  predicate IsSkill(skill: Json) {
    skill.Obj? && "folder_slug" in skill.fields && skill.fields["folder_slug"].Str?
  }

  predicate ListsSkills(doc: Json) {
    doc.Obj? && "skills" in doc.fields && doc.fields["skills"].Arr? && AreSkills(doc.fields["skills"].items)
  }

  predicate AreSkills(skills: seq<Json>) {
    forall k :: 0 <= k < |skills| ==> IsSkill(skills[k])
  }

  function Slug(skill: Json): string
    requires IsSkill(skill)
  {
    skill.fields["folder_slug"].chars
  }

  function Slugs(skills: seq<Json>): seq<string>
    requires AreSkills(skills)
  {
    seq(|skills|, k requires 0 <= k < |skills| => Slug(skills[k]))
  }

  predicate Distinct(slugs: seq<string>) {
    forall i, j :: 0 <= i < j < |slugs| ==> slugs[i] != slugs[j]
  }

  function SetOf(slugs: seq<string>): set<string> {
    set k | 0 <= k < |slugs| :: slugs[k]
  }

  /** The manifest, the integrity file and the folders name the same skills, each once. */
  predicate SameMembers(manifest: seq<Json>, integrity: seq<Json>, folders: set<string>)
    requires AreSkills(manifest) && AreSkills(integrity)
  {
    && Distinct(Slugs(manifest)) && Distinct(Slugs(integrity))
    && SetOf(Slugs(integrity)) == SetOf(Slugs(manifest)) && folders == SetOf(Slugs(manifest))
  }

  /** The fields a skill is given from its inventory. */
  function InventoryFields(files: Fields): Fields
    requires ENTRY in files && files[ENTRY].Obj? && files[ENTRY].fields.Keys == {"bytes", "sha256"}
  {
    map["companion_count" := Int(|files| - 1),
        "entry_bytes" := files[ENTRY].fields["bytes"],
        "entry_sha256" := files[ENTRY].fields["sha256"],
        "relative_file_hashes" := Obj(files)]
  }

  /** The folders of some slugs, each with an entry file. */
  predicate HasEntriesIn(skills: Folders, slugs: set<string>) {
    slugs <= skills.Keys && forall slug :: slug in slugs ==> ENTRY in Seen(slug, skills[slug])
  }

  predicate HasEntries(skills: Folders) {
    HasEntriesIn(skills, skills.Keys)
  }

  function Updated(c: Codec, skill: Json, skills: Folders): (r: Json)
    requires IsSkill(skill) && HasEntriesIn(skills, {Slug(skill)})
    ensures IsSkill(r) && Slug(r) == Slug(skill)
  {
    Obj(skill.fields + InventoryFields(Inventory(c, Slug(skill), skills[Slug(skill)])))
  }

  predicate AreFolders(listed: seq<Json>, skills: Folders)
    requires AreSkills(listed)
  {
    forall k :: 0 <= k < |listed| ==> Slug(listed[k]) in skills
  }

  function AllUpdated(c: Codec, listed: seq<Json>, skills: Folders): (r: seq<Json>)
    requires AreSkills(listed) && HasEntries(skills) && AreFolders(listed, skills)
    ensures |r| == |listed| && AreSkills(r) && Slugs(r) == Slugs(listed)
  {
    hide Updated, Seen;
    seq(|listed|, k requires 0 <= k < |listed| => Updated(c, listed[k], skills))
  }

  // ----- The documents -----

  datatype Docs = Docs(manifest: Fields, baseline: Fields, integrity: Fields, retrieval: Fields)

  predicate WellTyped(d: Docs, skills: Folders) {
    && ListsSkills(Obj(d.manifest)) && ListsSkills(Obj(d.integrity))
    && SameMembers(Listed(d.manifest), Listed(d.integrity), skills.Keys)
    && HasEntries(skills)
  }

  function Listed(doc: Fields): seq<Json>
    requires ListsSkills(Obj(doc))
  {
    doc["skills"].items
  }

  function DigestWithout(c: Codec, doc: Fields, key: string): string {
    c.digest(c.canon(Obj(doc - {key})))
  }

  function Packages(c: Codec, skills: Folders): Json {
    var inventories := Inventories(c, skills, skills.Keys);
    Obj(map slug | slug in inventories :: Obj(map["files" := Obj(inventories[slug])]))
  }

  lemma MembersAreFolders(listed: seq<Json>, skills: Folders)
    requires AreSkills(listed) && SetOf(Slugs(listed)) == skills.Keys
    ensures AreFolders(listed, skills)
  {
    forall k | 0 <= k < |listed| ensures Slug(listed[k]) in skills {
      assert Slugs(listed)[k] in SetOf(Slugs(listed));
    }
  }

  function WithSkills(c: Codec, doc: Fields, skills: Folders): (r: Fields)
    requires ListsSkills(Obj(doc)) && HasEntries(skills) && SetOf(Slugs(Listed(doc))) == skills.Keys
    ensures ListsSkills(Obj(r)) && Slugs(Listed(r)) == Slugs(Listed(doc))
  {
    MembersAreFolders(Listed(doc), skills);
    doc["skills" := Arr(AllUpdated(c, Listed(doc), skills))]
  }

  function Baselined(c: Codec, doc: Fields, skills: Folders): Fields {
    var packed := doc["packages" := Packages(c, skills)];
    packed["baseline_digest" := Str(DigestWithout(c, packed, "baseline_digest"))]
  }

  function SourceHashes(c: Codec, baseline: Fields, registry: Bytes, manifest: Fields): Json {
    Obj(map["deployed_baseline" := Str(c.digest(c.pretty(Obj(baseline)))),
            "deployed_child_schema_registry" := Str(c.digest(registry)),
            "deployed_manifest" := Str(c.digest(c.pretty(Obj(manifest))))])
  }

  /** The integrity file of already updated skills, over the new baseline and manifest. */
  function Sealed(c: Codec, doc: Fields, hashes: Json): (r: Fields)
    ensures "build_id" in r && r["build_id"].Str?
  {
    var hashed := doc["source_hashes" := hashes];
    hashed["build_id" := Str(DigestWithout(c, hashed, "build_id"))]
  }

  function Rebuilt(c: Codec, d: Docs, registry: Bytes, skills: Folders): (r: Docs)
    requires WellTyped(d, skills)
    ensures "build_id" in r.integrity && r.integrity["build_id"].Str?
  {
    var manifest := WithSkills(c, d.manifest, skills);
    var baseline := Baselined(c, d.baseline, skills);
    var integrity := Sealed(c, WithSkills(c, d.integrity, skills), SourceHashes(c, baseline, registry, manifest));
    Docs(manifest, baseline, integrity, d.retrieval["build_id" := integrity["build_id"]])
  }

  // ----- The generated files -----

  datatype Failure = BadTree | Malformed | Membership | NoEntry | BadPrompt

  datatype Result = Generated(files: map<string, Bytes>, buildId: string) | Failed(why: Failure)

  predicate IsObject(c: Codec, data: Bytes) {
    c.parse(data).Some? && c.parse(data).value.Obj?
  }

  function Load(c: Codec, data: Bytes): Fields
    requires IsObject(c, data)
  {
    c.parse(data).value.fields
  }

  predicate Loadable(c: Codec, root: map<string, Bytes>)
    requires ROOT_FILES <= root.Keys
  {
    && IsObject(c, root[MANIFEST]) && IsObject(c, root[BASELINE])
    && IsObject(c, root[INTEGRITY]) && IsObject(c, root[RETRIEVAL])
  }

  function LoadDocs(c: Codec, root: map<string, Bytes>): Docs
    requires ROOT_FILES <= root.Keys && Loadable(c, root)
  {
    Docs(Load(c, root[MANIFEST]), Load(c, root[BASELINE]), Load(c, root[INTEGRITY]), Load(c, root[RETRIEVAL]))
  }

  /** A prompt is text that carries exactly one build id. */
  predicate IsPrompt(c: Codec, data: Bytes) {
    c.decode(data).Some? && MatchCount(c.decode(data).value) == 1
  }

  function Prompted(c: Codec, data: Bytes, id: string): Bytes
    requires IsPrompt(c, data)
  {
    c.encode(Substituted(c.decode(data).value, id))
  }

  function FilesOf(c: Codec, d: Docs, prompt: Bytes, urlPrompt: Bytes): map<string, Bytes> {
    map[MANIFEST := c.pretty(Obj(d.manifest)), BASELINE := c.pretty(Obj(d.baseline)),
        INTEGRITY := c.pretty(Obj(d.integrity)), RETRIEVAL := c.pretty(Obj(d.retrieval)),
        PROMPT := prompt, URL_PROMPT := urlPrompt]
  }

  function Generate(c: Codec, b: Bundle): Result {
    if b.root.Keys != ROOT_FILES then Failed(BadTree)
    else if !Loadable(c, b.root) then Failed(Malformed)
    else
      var d := LoadDocs(c, b.root);
      if !ListsSkills(Obj(d.manifest)) || !ListsSkills(Obj(d.integrity)) then Failed(Malformed)
      else if !SameMembers(Listed(d.manifest), Listed(d.integrity), b.skills.Keys) then Failed(Membership)
      else if !HasEntries(b.skills) then Failed(NoEntry)
      else
        var made := Rebuilt(c, d, b.root[CHILD_REGISTRY], b.skills);
        var id := made.integrity["build_id"].chars;
        if !IsPrompt(c, b.root[PROMPT]) || !IsPrompt(c, b.root[URL_PROMPT]) then Failed(BadPrompt)
        else Generated(FilesOf(c, made, Prompted(c, b.root[PROMPT], id), Prompted(c, b.root[URL_PROMPT], id)), id)
  }

  // ----- The loop over the manifest's skills -----

  /** The skills of one document when those with a slug in `done` have been updated. */
  ghost predicate UpdatedUpTo(c: Codec, now: seq<Json>, listed: seq<Json>, skills: Folders, done: set<string>)
    requires AreSkills(listed) && HasEntriesIn(skills, done)
  {
    |now| == |listed| && forall k :: 0 <= k < |listed| ==>
      now[k] == if Slug(listed[k]) in done then Updated(c, listed[k], skills) else listed[k]
  }

  lemma OneMoreUpdated(c: Codec, now: seq<Json>, listed: seq<Json>, skills: Folders,
                       done: set<string>, j: nat, slug: string)
    requires AreSkills(listed) && Distinct(Slugs(listed)) && HasEntriesIn(skills, done)
    requires UpdatedUpTo(c, now, listed, skills, done) && j < |listed| && Slug(listed[j]) == slug && slug !in done
    ensures now[j] == listed[j]
    ensures HasEntriesIn(skills, {slug}) ==>
      && HasEntriesIn(skills, done + {slug})
      && UpdatedUpTo(c, now[j := Updated(c, now[j], skills)], listed, skills, done + {slug})
  {
    hide Updated;
    forall k | 0 <= k < |listed| && k != j ensures Slug(listed[k]) != slug {
      assert Slugs(listed)[k] == Slug(listed[k]) && Slugs(listed)[j] == slug;
    }
    if HasEntriesIn(skills, {slug}) {
      assert slug in {slug};
    }
  }

  lemma EveryOneUpdated(c: Codec, now: seq<Json>, listed: seq<Json>, skills: Folders)
    requires AreSkills(listed) && HasEntries(skills)
    requires SetOf(Slugs(listed)) == skills.Keys && AreFolders(listed, skills)
    requires UpdatedUpTo(c, now, listed, skills, skills.Keys)
    ensures now == AllUpdated(c, listed, skills)
  {
    hide Updated;
  }

  /** Inventorying one folder and updating one skill with it. */
  method UpdateSkill(c: Codec, skill: Json, skills: Folders, files: Fields) returns (r: Json)
    requires IsSkill(skill) && HasEntriesIn(skills, {Slug(skill)})
    requires files == Inventory(c, Slug(skill), skills[Slug(skill)])
    ensures r == Updated(c, skill, skills)
  {
    r := Obj(skill.fields + InventoryFields(files));
  }

  /** Where each slug is listed. */
  function Places(listed: seq<Json>): (r: map<string, nat>)
    requires AreSkills(listed) && Distinct(Slugs(listed))
    ensures r.Keys == SetOf(Slugs(listed))
    ensures forall slug :: slug in r ==> r[slug] < |listed| && Slug(listed[r[slug]]) == slug
  {
    var slugs := Slugs(listed);
    map k: nat | k < |slugs| :: slugs[k] := k
  }

  lemma FirstSlugs(listed: seq<Json>, i: nat)
    requires AreSkills(listed) && i < |listed|
    ensures SetOf(Slugs(listed)[..i + 1]) == SetOf(Slugs(listed)[..i]) + {Slug(listed[i])}
    ensures Slug(listed[i]) in SetOf(Slugs(listed))
    ensures Distinct(Slugs(listed)) ==> Slug(listed[i]) !in SetOf(Slugs(listed)[..i])
  {
    var slugs := Slugs(listed);
    assert slugs[i] == Slug(listed[i]);
    forall slug | slug in SetOf(slugs[..i]) + {slugs[i]} ensures slug in SetOf(slugs[..i + 1]) {
      if slug != slugs[i] {
        var k :| 0 <= k < i && slugs[..i][k] == slug;
        assert slugs[..i + 1][k] == slug;
      } else {
        assert slugs[..i + 1][i] == slug;
      }
    }
  }

  /**
   * One pass over the manifest's skills: inventory each folder, and update the skill where the
   * manifest and where the integrity file list it. None when a folder has no entry file.
   */
  method UpdateSkills(c: Codec, manifest: seq<Json>, integrity: seq<Json>, skills: Folders)
    returns (r: Option<(seq<Json>, seq<Json>, map<string, Fields>)>)
    requires AreSkills(manifest) && AreSkills(integrity) && SameMembers(manifest, integrity, skills.Keys)
    ensures r.Some? <==> HasEntries(skills)
    ensures r.Some? ==>
      && AreFolders(manifest, skills) && AreFolders(integrity, skills)
      && r.value.0 == AllUpdated(c, manifest, skills)
      && r.value.1 == AllUpdated(c, integrity, skills)
      && r.value.2 == Inventories(c, skills, skills.Keys)
  {
    hide Inventory, Inventories, Updated, Seen, SetOf, Slugs, Distinct;
    MembersAreFolders(manifest, skills);
    MembersAreFolders(integrity, skills);
    var places := Places(integrity);
    var inManifest, inIntegrity, inventories := manifest, integrity, map[];
    ghost var done: set<string> := {};
    NoSlugs(manifest);
    NoInventories(c, skills);
    for i := 0 to |manifest|
      invariant done == SetOf(Slugs(manifest)[..i]) && HasEntriesIn(skills, done)
      invariant inventories == Inventories(c, skills, done)
      invariant UpdatedUpTo(c, inManifest, manifest, skills, done)
      invariant UpdatedUpTo(c, inIntegrity, integrity, skills, done)
    {
      FirstSlugs(manifest, i);
      var slug := Slug(manifest[i]);
      var j := places[slug];
      OneMoreUpdated(c, inManifest, manifest, skills, done, i, slug);
      OneMoreUpdated(c, inIntegrity, integrity, skills, done, j, slug);
      var files := FileInventory(c, slug, skills[slug]);
      InventoriedEntry(c, slug, skills);
      OneMoreInventory(c, skills, done, slug);
      inventories := inventories[slug := files];
      if ENTRY !in files {
        return None;
      }
      var updated := UpdateSkill(c, inManifest[i], skills, files);
      inManifest := inManifest[i := updated];
      updated := UpdateSkill(c, inIntegrity[j], skills, files);
      inIntegrity := inIntegrity[j := updated];
      done := done + {slug};
    }
    assert Slugs(manifest)[..|manifest|] == Slugs(manifest);
    EveryOneUpdated(c, inManifest, manifest, skills);
    EveryOneUpdated(c, inIntegrity, integrity, skills);
    return Some((inManifest, inIntegrity, inventories));
  }

  lemma InventoriedEntry(c: Codec, slug: string, skills: Folders)
    requires slug in skills
    ensures ENTRY in Inventory(c, slug, skills[slug]) <==> HasEntriesIn(skills, {slug})
  {
    assert slug in {slug};
  }

  lemma NoSlugs(listed: seq<Json>)
    requires AreSkills(listed)
    ensures |Slugs(listed)| == |listed| && SetOf(Slugs(listed)[..0]) == {}
  {
  }

  method GeneratedFiles(c: Codec, b: Bundle) returns (r: Result)
    ensures r == Generate(c, b)
  {
    if b.root.Keys != ROOT_FILES {
      return Failed(BadTree);
    }
    if !Loadable(c, b.root) {
      return Failed(Malformed);
    }
    var d := LoadDocs(c, b.root);
    if !ListsSkills(Obj(d.manifest)) || !ListsSkills(Obj(d.integrity)) {
      return Failed(Malformed);
    }
    if !SameMembers(Listed(d.manifest), Listed(d.integrity), b.skills.Keys) {
      return Failed(Membership);
    }
    hide SameMembers, AllUpdated, Inventories, DigestWithout, Inventory, Updated;
    var updated := UpdateSkills(c, Listed(d.manifest), Listed(d.integrity), b.skills);
    if updated.None? {
      return Failed(NoEntry);
    }
    var (inManifest, inIntegrity, inventories) := updated.value;
    var manifest := d.manifest["skills" := Arr(inManifest)];
    var packages := Obj(map slug | slug in inventories :: Obj(map["files" := Obj(inventories[slug])]));
    var packed := d.baseline["packages" := packages];
    var baseline := packed["baseline_digest" := Str(DigestWithout(c, packed, "baseline_digest"))];
    var integrity := d.integrity["skills" := Arr(inIntegrity)];
    integrity := integrity["source_hashes" := SourceHashes(c, baseline, b.root[CHILD_REGISTRY], manifest)];
    integrity := integrity["build_id" := Str(DigestWithout(c, integrity, "build_id"))];
    var id := integrity["build_id"].chars;
    var retrieval := d.retrieval["build_id" := integrity["build_id"]];
    if !IsPrompt(c, b.root[PROMPT]) || !IsPrompt(c, b.root[URL_PROMPT]) {
      return Failed(BadPrompt);
    }
    var made := Docs(manifest, baseline, integrity, retrieval);
    return Generated(FilesOf(c, made, Prompted(c, b.root[PROMPT], id), Prompted(c, b.root[URL_PROMPT], id)), id);
  }

  // ----- Regenerating what was generated changes nothing -----

  lemma AddedTwice(m: Fields, more: Fields)
    ensures m + more + more == m + more
  {
  }

  lemma UpdatedTwice(c: Codec, skill: Json, skills: Folders)
    requires IsSkill(skill) && HasEntriesIn(skills, {Slug(skill)})
    ensures Updated(c, Updated(c, skill, skills), skills) == Updated(c, skill, skills)
  {
    hide Inventory, InventoryFields, Seen, HasEntriesIn;
    var once := Updated(c, skill, skills);
    UpdatedFields(c, skill, skills);
    UpdatedFields(c, once, skills);
    AddedTwice(skill.fields, FieldsFor(c, Slug(skill), skills));
  }

  /** The fields that a folder of this slug gives a skill. */
  function FieldsFor(c: Codec, slug: string, skills: Folders): Fields
    requires HasEntriesIn(skills, {slug})
  {
    assert slug in {slug};
    InventoryOf(c, slug, skills[slug]);
    EntryOf(c, skills[slug][ENTRY]);
    InventoryFields(Inventory(c, slug, skills[slug]))
  }

  lemma UpdatedFields(c: Codec, skill: Json, skills: Folders)
    requires IsSkill(skill) && HasEntriesIn(skills, {Slug(skill)})
    ensures Updated(c, skill, skills) == Obj(skill.fields + FieldsFor(c, Slug(skill), skills))
  {
    hide Inventory, InventoryFields, Seen;
  }

  lemma HasEntry(skills: Folders, slug: string)
    requires HasEntries(skills) && slug in skills
    ensures HasEntriesIn(skills, {slug})
  {
  }

  lemma AllUpdatedTwice(c: Codec, listed: seq<Json>, skills: Folders)
    requires AreSkills(listed) && HasEntries(skills) && AreFolders(listed, skills)
    ensures AreFolders(AllUpdated(c, listed, skills), skills)
    ensures AllUpdated(c, AllUpdated(c, listed, skills), skills) == AllUpdated(c, listed, skills)
  {
    hide Updated, HasEntriesIn, Seen, SetOf;
    var once := AllUpdated(c, listed, skills);
    forall k | 0 <= k < |listed|
      ensures Slug(once[k]) == Slug(listed[k]) && HasEntriesIn(skills, {Slug(once[k])})
      ensures Updated(c, once[k], skills) == once[k]
    {
      HasEntry(skills, Slug(listed[k]));
      UpdatedTwice(c, listed[k], skills);
    }
  }

  lemma WithSkillsTwice(c: Codec, doc: Fields, skills: Folders)
    requires ListsSkills(Obj(doc)) && HasEntries(skills) && SetOf(Slugs(Listed(doc))) == skills.Keys
    ensures WithSkills(c, WithSkills(c, doc, skills), skills) == WithSkills(c, doc, skills)
  {
    hide AllUpdated, HasEntries, AreFolders, SetOf, Slugs, AreSkills;
    MembersAreFolders(Listed(doc), skills);
    AllUpdatedTwice(c, Listed(doc), skills);
  }

  /** A field that is digested away may be set to anything first. */
  lemma DigestIgnores(c: Codec, doc: Fields, key: string, value: Json)
    ensures DigestWithout(c, doc[key := value], key) == DigestWithout(c, doc, key)
  {
    assert doc[key := value] - {key} == doc - {key};
  }

  lemma BaselinedTwice(c: Codec, doc: Fields, skills: Folders)
    ensures Baselined(c, Baselined(c, doc, skills), skills) == Baselined(c, doc, skills)
  {
    hide Packages, DigestWithout;
    var packed := doc["packages" := Packages(c, skills)];
    var digest := Str(DigestWithout(c, packed, "baseline_digest"));
    var once := packed["baseline_digest" := digest];
    assert once["packages" := Packages(c, skills)] == once;
    DigestIgnores(c, packed, "baseline_digest", digest);
    assert once["baseline_digest" := digest] == once;
  }

  lemma SealedTwice(c: Codec, doc: Fields, hashes: Json)
    ensures Sealed(c, Sealed(c, doc, hashes), hashes) == Sealed(c, doc, hashes)
  {
    hide DigestWithout;
    var hashed := doc["source_hashes" := hashes];
    var id := Str(DigestWithout(c, hashed, "build_id"));
    var once := hashed["build_id" := id];
    assert once["source_hashes" := hashes] == once;
    DigestIgnores(c, hashed, "build_id", id);
    assert once["build_id" := id] == once;
  }

  /** Updating the skills of a sealed integrity file that has them already leaves it as it is. */
  lemma SealedSkills(c: Codec, doc: Fields, hashes: Json, skills: Folders)
    requires ListsSkills(Obj(doc)) && HasEntries(skills) && SetOf(Slugs(Listed(doc))) == skills.Keys
    requires WithSkills(c, doc, skills) == doc
    ensures ListsSkills(Obj(Sealed(c, doc, hashes))) && Listed(Sealed(c, doc, hashes)) == Listed(doc)
    ensures WithSkills(c, Sealed(c, doc, hashes), skills) == Sealed(c, doc, hashes)
  {
    hide DigestWithout, AllUpdated;
    MembersAreFolders(Listed(doc), skills);
    var sealed := Sealed(c, doc, hashes);
    assert sealed["skills"] == doc["skills"] == Arr(AllUpdated(c, Listed(doc), skills));
    assert sealed["skills" := sealed["skills"]] == sealed;
  }

  lemma RebuiltTwice(c: Codec, d: Docs, registry: Bytes, skills: Folders)
    requires WellTyped(d, skills)
    ensures WellTyped(Rebuilt(c, d, registry, skills), skills)
    ensures Rebuilt(c, Rebuilt(c, d, registry, skills), registry, skills) == Rebuilt(c, d, registry, skills)
  {
    hide WithSkills, Baselined, Sealed, SourceHashes, HasEntries, Distinct, SetOf, Slugs, AreSkills;
    var made := Rebuilt(c, d, registry, skills);
    var hashes := SourceHashes(c, made.baseline, registry, made.manifest);
    var listed := WithSkills(c, d.integrity, skills);
    WithSkillsTwice(c, d.manifest, skills);
    WithSkillsTwice(c, d.integrity, skills);
    BaselinedTwice(c, d.baseline, skills);
    SealedSkills(c, listed, hashes, skills);
    SealedTwice(c, listed, hashes);
    assert made.retrieval["build_id" := made.integrity["build_id"]] == made.retrieval;
  }

  lemma PromptedTwice(c: Codec, data: Bytes, id: string)
    requires ReadsBack(c) && IsBuildId(id) && IsPrompt(c, data)
    ensures IsPrompt(c, Prompted(c, data, id)) && Prompted(c, Prompted(c, data, id), id) == Prompted(c, data, id)
  {
    var text := c.decode(data).value;
    SubstitutedFree(text, id, CARRIAGE_RETURN);
    SubstitutedFixed(text, id);
    assert c.decode(c.encode(Substituted(text, id))) == Some(Substituted(text, id));
  }

  /** Writing the generated files over the bundle. */
  function Written(b: Bundle, files: map<string, Bytes>): Bundle {
    b.(root := b.root + files)
  }

  /** The files a check reports. */
  function Stale(b: Bundle, files: map<string, Bytes>): set<string> {
    set name | name in files && (name !in b.root || b.root[name] != files[name])
  }

  /** The six generated names are six root files. */
  lemma FilesAt(c: Codec, d: Docs, prompt: Bytes, urlPrompt: Bytes)
    ensures var files := FilesOf(c, d, prompt, urlPrompt);
            && files.Keys == {MANIFEST, BASELINE, INTEGRITY, RETRIEVAL, PROMPT, URL_PROMPT}
            && files.Keys <= ROOT_FILES && CHILD_REGISTRY in ROOT_FILES && CHILD_REGISTRY !in files
            && files[MANIFEST] == c.pretty(Obj(d.manifest)) && files[BASELINE] == c.pretty(Obj(d.baseline))
            && files[INTEGRITY] == c.pretty(Obj(d.integrity)) && files[RETRIEVAL] == c.pretty(Obj(d.retrieval))
            && files[PROMPT] == prompt && files[URL_PROMPT] == urlPrompt
  {
  }

  function Made(c: Codec, b: Bundle): Docs
    requires Generate(c, b).Generated?
  {
    Rebuilt(c, LoadDocs(c, b.root), b.root[CHILD_REGISTRY], b.skills)
  }

  lemma GeneratedForm(c: Codec, b: Bundle)
    requires Generate(c, b).Generated?
    ensures b.root.Keys == ROOT_FILES && Loadable(c, b.root) && WellTyped(LoadDocs(c, b.root), b.skills)
    ensures IsPrompt(c, b.root[PROMPT]) && IsPrompt(c, b.root[URL_PROMPT])
    ensures var made, id := Made(c, b), Generate(c, b).buildId;
            && made.integrity["build_id"] == Str(id)
            && "build_id" in made.retrieval && made.retrieval["build_id"] == Str(id)
            && Generate(c, b).files ==
               FilesOf(c, made, Prompted(c, b.root[PROMPT], id), Prompted(c, b.root[URL_PROMPT], id))
  {
  }

  lemma BuildIdIsDigest(c: Codec, b: Bundle)
    requires DigestsAreIds(c) && Generate(c, b).Generated?
    ensures IsBuildId(Generate(c, b).buildId)
  {
    hide Generate, Baselined, WithSkills, SourceHashes, IsBuildId, LoadDocs, IsPrompt, Prompted;
    GeneratedForm(c, b);
  }

  lemma WrittenLoads(c: Codec, b: Bundle)
    requires ParsesBack(c) && Generate(c, b).Generated?
    ensures var after := Written(b, Generate(c, b).files);
            && after.root.Keys == ROOT_FILES && after.skills == b.skills
            && after.root[CHILD_REGISTRY] == b.root[CHILD_REGISTRY]
            && Loadable(c, after.root) && LoadDocs(c, after.root) == Made(c, b)
  {
    hide Generate, Made, FilesOf, IsPrompt, Prompted, WellTyped;
    GeneratedForm(c, b);
    var made, id := Made(c, b), Generate(c, b).buildId;
    FilesAt(c, made, Prompted(c, b.root[PROMPT], id), Prompted(c, b.root[URL_PROMPT], id));
    assert (b.root + Generate(c, b).files).Keys == ROOT_FILES;
  }

  /** Regeneration settles: run again on what it wrote, it produces the same files, and none is stale. */
  lemma RegenerationSettles(c: Codec, b: Bundle)
    requires ParsesBack(c) && ReadsBack(c) && DigestsAreIds(c) && Generate(c, b).Generated?
    ensures var after := Written(b, Generate(c, b).files);
            Generate(c, after) == Generate(c, b) && Stale(after, Generate(c, after).files) == {}
  {
    hide Rebuilt, IsPrompt, Prompted, Loadable, LoadDocs, ListsSkills, SameMembers, HasEntries, FilesOf;
    var d, registry, id := LoadDocs(c, b.root), b.root[CHILD_REGISTRY], Generate(c, b).buildId;
    var after := Written(b, Generate(c, b).files);
    GeneratedForm(c, b);
    WrittenLoads(c, b);
    RebuiltTwice(c, d, registry, b.skills);
    BuildIdIsDigest(c, b);
    PromptedTwice(c, b.root[PROMPT], id);
    PromptedTwice(c, b.root[URL_PROMPT], id);
    FilesAt(c, Made(c, b), Prompted(c, b.root[PROMPT], id), Prompted(c, b.root[URL_PROMPT], id));
  }

  // ----- The build id binds every file -----

  lemma EqualDigests(c: Codec, x: Json, y: Json)
    requires ParsesBack(c) && CollisionFree(c) && c.digest(c.canon(x)) == c.digest(c.canon(y))
    ensures x == y
  {
    assert c.parse(c.canon(x)) == Some(x) && c.parse(c.canon(y)) == Some(y);
  }

  lemma EqualPrinted(c: Codec, x: Json, y: Json)
    requires ParsesBack(c) && CollisionFree(c) && c.digest(c.pretty(x)) == c.digest(c.pretty(y))
    ensures x == y
  {
    assert c.parse(c.pretty(x)) == Some(x) && c.parse(c.pretty(y)) == Some(y);
  }

  lemma SealedBinds(c: Codec, x: Fields, y: Fields, hx: Json, hy: Json)
    requires ParsesBack(c) && CollisionFree(c)
    requires Sealed(c, x, hx)["build_id"] == Sealed(c, y, hy)["build_id"]
    ensures hx == hy && Sealed(c, x, hx) == Sealed(c, y, hy)
  {
    var a, b := x["source_hashes" := hx], y["source_hashes" := hy];
    EqualDigests(c, Obj(a - {"build_id"}), Obj(b - {"build_id"}));
    assert (a - {"build_id"})["source_hashes"] == hx && (b - {"build_id"})["source_hashes"] == hy;
    assert Sealed(c, x, hx) == (a - {"build_id"})["build_id" := Sealed(c, x, hx)["build_id"]];
    assert Sealed(c, y, hy) == (b - {"build_id"})["build_id" := Sealed(c, y, hy)["build_id"]];
  }

  lemma HashesBind(c: Codec, baseX: Fields, baseY: Fields, regX: Bytes, regY: Bytes, manX: Fields, manY: Fields)
    requires ParsesBack(c) && CollisionFree(c)
    requires SourceHashes(c, baseX, regX, manX) == SourceHashes(c, baseY, regY, manY)
    ensures baseX == baseY && regX == regY && manX == manY
  {
    var x, y := SourceHashes(c, baseX, regX, manX).fields, SourceHashes(c, baseY, regY, manY).fields;
    assert x["deployed_baseline"] == y["deployed_baseline"];
    assert x["deployed_child_schema_registry"] == y["deployed_child_schema_registry"];
    assert x["deployed_manifest"] == y["deployed_manifest"];
    EqualPrinted(c, Obj(baseX), Obj(baseY));
    EqualPrinted(c, Obj(manX), Obj(manY));
  }

  lemma InventoryBinds(c: Codec, slug: string, x: map<string, Bytes>, y: map<string, Bytes>)
    requires CollisionFree(c) && Inventory(c, slug, x) == Inventory(c, slug, y)
    ensures Seen(slug, x) == Seen(slug, y)
  {
    hide Seen;
    var sx, sy := Seen(slug, x), Seen(slug, y);
    assert sx.Keys == Inventory(c, slug, x).Keys && sy.Keys == Inventory(c, slug, y).Keys;
    forall path | path in sx ensures sx[path] == sy[path] {
      assert Inventory(c, slug, x)[path] == Entry(c, sx[path]) && Inventory(c, slug, y)[path] == Entry(c, sy[path]);
      assert Entry(c, sx[path]).fields["sha256"] == Entry(c, sy[path]).fields["sha256"];
    }
  }

  ghost predicate SeenAlike(x: Folders, y: Folders) {
    x.Keys == y.Keys && forall slug :: slug in x ==> Seen(slug, x[slug]) == Seen(slug, y[slug])
  }

  // ----- Which files those are -----

  function JoinSlash(parts: seq<string>): string
    requires parts != []
  {
    if |parts| == 1 then parts[0] else parts[0] + "/" + JoinSlash(parts[1..])
  }

  /** The components of a path: some, and none with a slash in it. */
  predicate AreComponents(parts: seq<string>) {
    parts != [] && forall i :: 0 <= i < |parts| ==> '/' !in parts[i]
  }

  lemma {:induction false} PartsAfter(part: string, rest: string)
    requires '/' !in part
    ensures Parts(part + "/" + rest) == [part] + Parts(rest)
  {
    var s := part + "/" + rest;
    if part == "" {
      assert s[0] == '/' && s[1..] == rest;
    } else {
      PartsAfter(part[1..], rest);
      assert s[0] == part[0] && s[1..] == part[1..] + "/" + rest;
      assert [part[0]] + part[1..] == part;
    }
  }

  lemma {:induction false} OnePart(part: string)
    requires '/' !in part
    ensures Parts(part) == [part]
  {
    if part != "" {
      OnePart(part[1..]);
      assert [part[0]] + part[1..] == part;
    }
  }

  lemma {:induction false} PartsOfJoined(parts: seq<string>)
    requires AreComponents(parts)
    ensures Parts(JoinSlash(parts)) == parts
  {
    if |parts| == 1 {
      OnePart(parts[0]);
      assert parts == [parts[0]];
    } else {
      PartsOfJoined(parts[1..]);
      PartsAfter(parts[0], JoinSlash(parts[1..]));
      assert parts == [parts[0]] + parts[1..];
    }
  }

  /** A file name of some stem and the suffix of compiled Python. */
  ghost predicate IsCompiled(name: string) {
    exists stem: string :: stem != "" && name == stem + ".pyc"
  }

  /** A file of a skill is tracked unless it lies in a cache folder or is compiled Python. */
  ghost predicate Tracked(slug: string, parts: seq<string>)
    requires parts != []
  {
    slug != "__pycache__" && "__pycache__" !in parts && !IsCompiled(parts[|parts| - 1])
  }

  lemma CompiledExactly(name: string)
    ensures IsCompiled(name) <==> |name| > 4 && name[|name| - 4..] == ".pyc"
  {
    if |name| > 4 && name[|name| - 4..] == ".pyc" {
      assert name == name[..|name| - 4] + ".pyc";
    }
  }

  lemma TrackedExactly(slug: string, parts: seq<string>)
    requires AreComponents(parts)
    ensures Tracked(slug, parts) <==> !Ignored(slug, JoinSlash(parts))
  {
    PartsOfJoined(parts);
    CompiledExactly(parts[|parts| - 1]);
    assert ([slug] + parts)[|parts|] == parts[|parts| - 1];
  }

  /** The inventory holds every tracked file and no other, each by its size and its digest. */
  lemma InventoriedExactly(c: Codec, slug: string, files: map<string, Bytes>, parts: seq<string>)
    requires AreComponents(parts)
    ensures var path, inventory := JoinSlash(parts), Inventory(c, slug, files);
            && (path in inventory <==> path in files && Tracked(slug, parts))
            && (path in inventory ==>
                  inventory[path] == Obj(map["bytes" := Int(|files[path]|), "sha256" := Str(c.digest(files[path]))]))
  {
    hide Ignored, Tracked;
    TrackedExactly(slug, parts);
  }

  /** Two sets of skill folders hold the same tracked files, byte for byte. */
  ghost predicate SameFiles(x: Folders, y: Folders) {
    && x.Keys == y.Keys
    && forall slug, parts | slug in x && AreComponents(parts) && Tracked(slug, parts) ::
         && (JoinSlash(parts) in x[slug] <==> JoinSlash(parts) in y[slug])
         && (JoinSlash(parts) in x[slug] ==> x[slug][JoinSlash(parts)] == y[slug][JoinSlash(parts)])
  }

  lemma SeenAlikeSame(x: Folders, y: Folders)
    requires SeenAlike(x, y)
    ensures SameFiles(x, y)
  {
    hide Ignored, Tracked;
    forall slug, parts | slug in x && AreComponents(parts) && Tracked(slug, parts)
      ensures JoinSlash(parts) in x[slug] <==> JoinSlash(parts) in y[slug]
      ensures JoinSlash(parts) in x[slug] ==> x[slug][JoinSlash(parts)] == y[slug][JoinSlash(parts)]
    {
      TrackedExactly(slug, parts);
      var path := JoinSlash(parts);
      assert path in x[slug] <==> path in Seen(slug, x[slug]);
      assert path in y[slug] <==> path in Seen(slug, y[slug]);
    }
  }

  lemma PackagesBind(c: Codec, x: Folders, y: Folders)
    requires CollisionFree(c) && Packages(c, x) == Packages(c, y)
    ensures SeenAlike(x, y)
  {
    hide Inventory, Seen;
    var px, py := Packages(c, x).fields, Packages(c, y).fields;
    assert px.Keys == x.Keys && py.Keys == y.Keys;
    forall slug | slug in x ensures Seen(slug, x[slug]) == Seen(slug, y[slug]) {
      assert px[slug].fields["files"] == py[slug].fields["files"];
      InventoryBinds(c, slug, x[slug], y[slug]);
    }
  }

  lemma MadeBinds(c: Codec, dx: Docs, dy: Docs, regX: Bytes, regY: Bytes,
                  x: Folders, y: Folders)
    requires ParsesBack(c) && CollisionFree(c) && WellTyped(dx, x) && WellTyped(dy, y)
    requires Rebuilt(c, dx, regX, x).integrity["build_id"] == Rebuilt(c, dy, regY, y).integrity["build_id"]
    ensures SeenAlike(x, y) && regX == regY
    ensures var mx, my := Rebuilt(c, dx, regX, x), Rebuilt(c, dy, regY, y);
            mx.manifest == my.manifest && mx.baseline == my.baseline && mx.integrity == my.integrity
  {
    hide WithSkills, Sealed, SourceHashes, Baselined, Packages, SeenAlike, HasEntries, Distinct, SetOf, Slugs,
         AreSkills;
    var mx, my := Rebuilt(c, dx, regX, x), Rebuilt(c, dy, regY, y);
    var hx, hy := SourceHashes(c, mx.baseline, regX, mx.manifest), SourceHashes(c, my.baseline, regY, my.manifest);
    SealedBinds(c, WithSkills(c, dx.integrity, x), WithSkills(c, dy.integrity, y), hx, hy);
    HashesBind(c, mx.baseline, my.baseline, regX, regY, mx.manifest, my.manifest);
    BaselineHolds(c, dx.baseline, x);
    BaselineHolds(c, dy.baseline, y);
    PackagesBind(c, x, y);
  }

  /**
   * Through the chain of digests, one build id stands for one set of files: two bundles that
   * regenerate to the same id have the same skill folders with the same tracked bytes, the same
   * child schema registry, and the same manifest, baseline and integrity file.
   */
  lemma BuildIdBinds(c: Codec, x: Bundle, y: Bundle)
    requires ParsesBack(c) && CollisionFree(c)
    requires Generate(c, x).Generated? && Generate(c, y).Generated? && Generate(c, x).buildId == Generate(c, y).buildId
    ensures SameFiles(x.skills, y.skills) && x.root[CHILD_REGISTRY] == y.root[CHILD_REGISTRY]
    ensures Made(c, x).manifest == Made(c, y).manifest && Made(c, x).baseline == Made(c, y).baseline
    ensures Made(c, x).integrity == Made(c, y).integrity
  {
    hide Generate, WithSkills, WellTyped, IsPrompt, Prompted, Loadable, LoadDocs, Sealed, SourceHashes, Baselined;
    hide FilesOf;
    GeneratedForm(c, x);
    GeneratedForm(c, y);
    var dx, dy := LoadDocs(c, x.root), LoadDocs(c, y.root);
    MadeBinds(c, dx, dy, x.root[CHILD_REGISTRY], y.root[CHILD_REGISTRY], x.skills, y.skills);
    SeenAlikeSame(x.skills, y.skills);
  }

  lemma BaselineHolds(c: Codec, doc: Fields, skills: Folders)
    ensures "packages" in Baselined(c, doc, skills) && Baselined(c, doc, skills)["packages"] == Packages(c, skills)
  {
    hide Packages, DigestWithout;
  }

  /**
   * What a passing `--check` is worth: two bundles with the same root files, both of which pass, have
   * the same tracked files in every skill folder, so any edit of one is reported.
   */
  lemma CheckCatchesEveryEdit(c: Codec, x: Bundle, y: Bundle)
    requires ParsesBack(c) && CollisionFree(c) && x.root == y.root
    requires Generate(c, x).Generated? && Stale(x, Generate(c, x).files) == {}
    requires Generate(c, y).Generated? && Stale(y, Generate(c, y).files) == {}
    ensures SameFiles(x.skills, y.skills)
  {
    hide Generate;
    IntegrityOnDisk(c, x);
    IntegrityOnDisk(c, y);
    BuildIdBinds(c, x, y);
  }

  lemma IntegrityOnDisk(c: Codec, b: Bundle)
    requires ParsesBack(c) && Generate(c, b).Generated? && Stale(b, Generate(c, b).files) == {}
    ensures INTEGRITY in b.root && IsObject(c, b.root[INTEGRITY])
    ensures "build_id" in Load(c, b.root[INTEGRITY])
    ensures Load(c, b.root[INTEGRITY])["build_id"] == Str(Generate(c, b).buildId)
  {
    hide Generate, FilesOf, IsPrompt, Prompted, WellTyped, LoadDocs, Loadable;
    GeneratedForm(c, b);
    var made, id, files := Made(c, b), Generate(c, b).buildId, Generate(c, b).files;
    FilesAt(c, made, Prompted(c, b.root[PROMPT], id), Prompted(c, b.root[URL_PROMPT], id));
    assert INTEGRITY in files && INTEGRITY !in Stale(b, files);
    assert b.root[INTEGRITY] == c.pretty(Obj(made.integrity));
  }

  /** The integrity file and the retrieval index are written with the same build id. */
  lemma FilesCarryId(c: Codec, b: Bundle, name: string)
    requires ParsesBack(c) && Generate(c, b).Generated? && name in {INTEGRITY, RETRIEVAL}
    ensures var r := Generate(c, b);
            && name in r.files && IsObject(c, r.files[name])
            && "build_id" in Load(c, r.files[name]) && Load(c, r.files[name])["build_id"] == Str(r.buildId)
  {
    hide FilesOf, IsPrompt, Prompted, WellTyped, LoadDocs, Loadable, Sealed, Baselined, WithSkills;
    GeneratedForm(c, b);
    hide Generate;
    var id := Generate(c, b).buildId;
    FilesAt(c, Made(c, b), Prompted(c, b.root[PROMPT], id), Prompted(c, b.root[URL_PROMPT], id));
  }

  /** What an updated skill says of its folder: the entry file itself, and how many others there are. */
  lemma UpdatedSkillTells(c: Codec, slug: string, files: map<string, Bytes>)
    requires ENTRY in Seen(slug, files)
    ensures ENTRY in files && ENTRY in Inventory(c, slug, files)
    ensures Inventory(c, slug, files)[ENTRY].Obj? && Inventory(c, slug, files)[ENTRY].fields.Keys == {"bytes", "sha256"}
    ensures InventoryFields(Inventory(c, slug, files)) ==
            map["companion_count" := Int(|Seen(slug, files).Keys - {ENTRY}|),
                "entry_bytes" := Int(|files[ENTRY]|),
                "entry_sha256" := Str(c.digest(files[ENTRY])),
                "relative_file_hashes" := Obj(Inventory(c, slug, files))]
  {
    InventoryOf(c, slug, files);
    EntryOf(c, files[ENTRY]);
    hide Seen, Inventory, Entry;
  }

  lemma InventoryOf(c: Codec, slug: string, files: map<string, Bytes>)
    requires ENTRY in Seen(slug, files)
    ensures ENTRY in files && ENTRY in Inventory(c, slug, files)
    ensures Inventory(c, slug, files)[ENTRY] == Entry(c, files[ENTRY])
    ensures |Inventory(c, slug, files)| - 1 == |Seen(slug, files).Keys - {ENTRY}|
  {
    hide Entry;
    var seen, inventory := Seen(slug, files), Inventory(c, slug, files);
    assert inventory.Keys == seen.Keys;
    assert |inventory| == |inventory.Keys| && |seen.Keys - {ENTRY}| == |seen.Keys| - 1;
  }

  lemma EntryOf(c: Codec, data: Bytes)
    ensures Entry(c, data).fields.Keys == {"bytes", "sha256"}
    ensures Entry(c, data).fields["bytes"] == Int(|data|) && Entry(c, data).fields["sha256"] == Str(c.digest(data))
  {
  }

  /** Every regenerated prompt carries the build id, once, where it carried another. */
  lemma PromptsCarryId(c: Codec, b: Bundle, name: string)
    requires ReadsBack(c) && DigestsAreIds(c) && Generate(c, b).Generated? && name in {PROMPT, URL_PROMPT}
    ensures var r := Generate(c, b);
            && name in r.files && c.decode(r.files[name]).Some?
            && var text := c.decode(r.files[name]).value;
               AllCarry(text, r.buildId) && MatchCount(text) == 1
  {
    hide Generate, WellTyped, Loadable, LoadDocs, AllCarry, MatchCount, FilesOf, IsBuildId;
    GeneratedForm(c, b);
    BuildIdIsDigest(c, b);
    var id, text := Generate(c, b).buildId, c.decode(b.root[name]).value;
    FilesAt(c, Made(c, b), Prompted(c, b.root[PROMPT], id), Prompted(c, b.root[URL_PROMPT], id));
    SubstitutedFree(text, id, CARRIAGE_RETURN);
    SubstitutedFixed(text, id);
    SubstitutedCarries(text, id);
    assert c.decode(c.encode(Substituted(text, id))) == Some(Substituted(text, id));
  }

  /**
   * A bundle that passes the check carries one build id throughout: in the integrity file, in the
   * retrieval index and at the one place of each prompt.
   */
  lemma CheckedBundleCarriesOneId(c: Codec, b: Bundle)
    requires ParsesBack(c) && ReadsBack(c) && DigestsAreIds(c)
    requires Generate(c, b).Generated? && Stale(b, Generate(c, b).files) == {}
    ensures var id := Generate(c, b).buildId;
            && IsBuildId(id)
            && (forall name :: name in {INTEGRITY, RETRIEVAL} ==>
                  && name in b.root && IsObject(c, b.root[name])
                  && "build_id" in Load(c, b.root[name]) && Load(c, b.root[name])["build_id"] == Str(id))
            && (forall name :: name in {PROMPT, URL_PROMPT} ==>
                  && name in b.root && c.decode(b.root[name]).Some?
                  && AllCarry(c.decode(b.root[name]).value, id) && MatchCount(c.decode(b.root[name]).value) == 1)
  {
    hide Generate, IsBuildId, AllCarry, MatchCount;
    BuildIdIsDigest(c, b);
    forall name | name in {INTEGRITY, RETRIEVAL}
      ensures && name in b.root && IsObject(c, b.root[name])
              && "build_id" in Load(c, b.root[name])
              && Load(c, b.root[name])["build_id"] == Str(Generate(c, b).buildId)
    {
      FilesCarryId(c, b, name);
      assert name !in Stale(b, Generate(c, b).files);
    }
    forall name | name in {PROMPT, URL_PROMPT}
      ensures && name in b.root && c.decode(b.root[name]).Some?
              && AllCarry(c.decode(b.root[name]).value, Generate(c, b).buildId)
              && MatchCount(c.decode(b.root[name]).value) == 1
    {
      PromptsCarryId(c, b, name);
      assert name !in Stale(b, Generate(c, b).files);
    }
  }
}
