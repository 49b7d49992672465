// What each write method of the database does to the tables, as one atomic step.
// None means that the method returns an error and the tables stay as they were.

module Store {
  import opened Basics
  import opened Schema

  // ---------- Arguments ----------

  // What a caller supplies about an entity; no managers stands for a nil list.
  datatype EntityInfo = EntityInfo(
    name: string,
    email: string,
    kind: string,
    size: int,
    consented: bool,
    callbackUrl: string,
    callbackSecret: string,
    managers: Option<seq<Bytes>>,
    origins: seq<Origin>)

  // What a caller supplies about a member; tags are None for a nil list.
  datatype MemberInfo = MemberInfo(
    street: string,
    first: string,
    last: string,
    phone: string,
    email: string,
    birth: int,
    verified: int,
    tags: Option<seq<int>>)

  datatype CensusInfo = CensusInfo(name: string, root: Bytes, uri: string, size: int, ephemeral: bool)

  // A member of a bulk import; an empty entity stands for the importing one.
  datatype NewMember = NewMember(entity: Bytes, key: Bytes, info: MemberInfo)

  datatype KeyPair = KeyPair(public: Bytes, private: Bytes)

  // ---------- Entities ----------

  function EntityFrom(info: EntityInfo, managers: seq<Bytes>): Entity {
    Entity(info.name, info.email, info.kind, info.size, info.consented,
           info.callbackUrl, info.callbackSecret, managers, false)
  }

  function OriginRows(e: Bytes, origins: seq<Origin>): seq<Row> {
    seq(|origins|, i requires 0 <= i < |origins| => OriginRow(e, origins[i]))
  }

  // The label sent for API is not one of the enumeration's, so its cast fails.
  function AddEntity(t: Tables, e: Bytes, info: EntityInfo): Option<Tables> {
    if info.managers.None? then None
    else match InsertRow(t, EntityRow(e, EntityFrom(info, info.managers.value)))
      case None => None
      case Some(t1) => if API in info.origins then None else InsertAll(t1, OriginRows(e, info.origins))
  }

  function DeleteEntity(t: Tables, e: Bytes): Option<Tables> {
    if |e| == 0 then None else EntityDeleted(t, e)
  }

  function OrElse(s: string, stored: string): string {
    if s == "" then stored else s
  }

  function UpdateEntity(t: Tables, e: Bytes, info: EntityInfo): Tables {
    if e !in t.entities then t
    else
      var o := t.entities[e];
      t.(entities := t.entities[e := o.(name := OrElse(info.name, o.name), email := OrElse(info.email, o.email),
                                        callbackUrl := info.callbackUrl, callbackSecret := info.callbackSecret)])
  }

  function AuthorizeEntity(t: Tables, e: Bytes): Option<Tables> {
    if e in t.entities && !t.entities[e].authorized
    then Some(t.(entities := t.entities[e := t.entities[e].(authorized := true)])) else None
  }

  // ---------- Members ----------

  function EmailColumn(email: string): Option<string> {
    if email == "" then None else Some(email)
  }

  function MemberFrom(e: Bytes, key: Option<Bytes>, info: MemberInfo, now: int): Member {
    Member(e, key, info.street, info.first, info.last, info.phone, EmailColumn(info.email),
           info.birth, info.verified, [], now)
  }

  function EnsureUser(t: Tables, key: Bytes): Option<Tables> {
    if key in t.users then Some(t) else InsertRow(t, UserRow(key, key))
  }

  function AddMember(t: Tables, e: Bytes, key: Option<Bytes>, info: MemberInfo, id: Uuid, now: int): Option<Tables> {
    if key.None? then None  // users.public_key is NOT NULL
    else match EnsureUser(t, key.value)
      case None => None
      case Some(t1) => InsertRow(t1, MemberRow(id, MemberFrom(e, key, info, now)))
  }

  const BLANK := MemberInfo("", "", "", "", "", 0, 0, None)

  function TokenRows(e: Bytes, tokens: seq<Uuid>, now: int): seq<Row> {
    seq(|tokens|, i requires 0 <= i < |tokens| => MemberRow(tokens[i], MemberFrom(e, None, BLANK, now)))
  }

  function CreateMembersWithTokens(t: Tables, e: Bytes, tokens: seq<Uuid>, now: int): Option<Tables> {
    if NIL_UUID in tokens then None else InsertAll(t, TokenRows(e, tokens, now))
  }

  function ImportRows(e: Bytes, infos: seq<MemberInfo>, gen: nat -> Uuid, now: int): seq<Row> {
    seq(|infos|, i requires 0 <= i < |infos| => MemberRow(gen(i), MemberFrom(e, None, infos[i], now)))
  }

  function ImportMembers(t: Tables, e: Bytes, infos: seq<MemberInfo>, gen: nat -> Uuid, now: int): Option<Tables> {
    if infos == [] then None else InsertAll(t, ImportRows(e, infos, gen, now))
  }

  function UserRows(members: seq<NewMember>): seq<Row> {
    seq(|members|, i requires 0 <= i < |members| => UserRow(members[i].key, members[i].key))
  }

  function BulkRows(e: Bytes, members: seq<NewMember>, gen: nat -> Uuid, now: int): seq<Row> {
    seq(|members|, i requires 0 <= i < |members| =>
      MemberRow(gen(i), MemberFrom(e, Some(members[i].key), members[i].info, now)))
  }

  predicate Importable(e: Bytes, m: NewMember) {
    m.key != [] && (m.entity == [] || m.entity == e)
  }

  function AddMemberBulk(t: Tables, e: Bytes, members: seq<NewMember>, gen: nat -> Uuid, now: int): Option<Tables> {
    if members == [] || !(forall i :: 0 <= i < |members| ==> Importable(e, members[i])) then None
    else match InsertAll(t, UserRows(members))
      case None => None
      case Some(t1) => InsertAll(t1, BulkRows(e, members, gen, now))
  }

  function RegisterMember(t: Tables, e: Bytes, key: Bytes, id: Uuid, now: int): Option<Tables> {
    if !ValidPubKey(key) then None
    else match EnsureUser(t, key)
      case None => None
      case Some(t1) =>
        if id in t1.members && t1.members[id].entity == e
        then ReplaceMember(t1, id, t1.members[id].(key := Some(key), verified := now, updatedAt := now))
        else None
  }

  // COALESCE/NULLIF merge of the given information into a row.
  function Merge(m: Member, info: MemberInfo, now: int): Member {
    m.(street := OrElse(info.street, m.street),
       first := OrElse(info.first, m.first),
       last := OrElse(info.last, m.last),
       email := if info.email == "" then m.email else Some(info.email),
       birth := info.birth,
       tags := if info.tags.Some? then info.tags.value else m.tags,
       updatedAt := now)
  }

  // The IS DISTINCT FROM conditions of the WHERE clause.
  predicate Differs(m: Member, info: MemberInfo) {
    || info.street != m.street
    || info.first != m.first
    || info.last != m.last
    || EmailColumn(info.email) != m.email
    || info.birth != m.birth
    || info.tags != Some(m.tags)
  }

  predicate Owned(t: Tables, e: Bytes, id: Uuid) {
    id in t.members && t.members[id].entity == e
  }

  function UpdateMember(t: Tables, e: Bytes, id: Uuid, info: MemberInfo, now: int): Option<Tables> {
    if Owned(t, e, id) && Differs(t.members[id], info)
    then ReplaceMember(t, id, Merge(t.members[id], info, now)) else Some(t)
  }

  function DeleteMember(t: Tables, e: Bytes, id: Uuid): Option<Tables> {
    if Owned(t, e, id) then Some(WithoutMembers(t, {id})) else None
  }

  function MembersById(t: Tables, e: Bytes, ids: seq<Uuid>): set<Uuid> {
    set id | id in t.members && t.members[id].entity == e && id in ids
  }

  function DeleteMembers(t: Tables, e: Bytes, ids: seq<Uuid>): Option<Tables> {
    if e == [] then None else Some(WithoutMembers(t, MembersById(t, e, ids)))
  }

  function MembersByKey(t: Tables, e: Bytes, keys: seq<Bytes>): set<Uuid> {
    set id | id in t.members && t.members[id].entity == e && t.members[id].key.Some? && t.members[id].key.value in keys
  }

  function DeleteMembersByKeys(t: Tables, e: Bytes, keys: seq<Bytes>): Option<Tables> {
    if e == [] then None else Some(WithoutMembers(t, MembersByKey(t, e, keys)))
  }

  // ---------- Tags ----------

  predicate AddTagOk(t: Tables, e: Bytes, name: string) {
    name != "" && t.nextTag <= MAX_TAG && InsertRow(t, TagRow(t.nextTag, Tag(e, name))).Some?
  }

  // The sequence is not transactional: a rejected insertion consumes a value too.
  function AddTag(t: Tables, e: Bytes, name: string): Tables {
    if name == "" || t.nextTag > MAX_TAG then t
    else
      var r := InsertRow(t, TagRow(t.nextTag, Tag(e, name)));
      (if r.Some? then r.value else t).(nextTag := t.nextTag + 1)
  }

  predicate TagOf(t: Tables, e: Bytes, tag: int) {
    e != [] && tag != 0 && tag in t.tags && t.tags[tag].entity == e
  }

  // array_remove
  function Without(tags: seq<int>, tag: int): seq<int> {
    if tags == [] then []
    else (if tags[0] == tag then [] else [tags[0]]) + Without(tags[1..], tag)
  }

  function MapTags(t: Tables, ids: set<Uuid>, f: seq<int> -> seq<int>): Tables {
    t.(members := map a | a in t.members :: if a in ids then t.members[a].(tags := f(t.members[a].tags)) else t.members[a])
  }

  function Tagged(t: Tables, e: Bytes, tag: int): set<Uuid> {
    set a | a in t.members && t.members[a].entity == e && tag in t.members[a].tags
  }

  function DeleteTag(t: Tables, e: Bytes, tag: int): Option<Tables> {
    if !TagOf(t, e, tag) then None
    else
      var t1 := MapTags(t, Tagged(t, e, tag), tags => Without(tags, tag));
      Some(t1.(tags := t1.tags - {tag}))
  }

  function ToTag(t: Tables, e: Bytes, ids: seq<Uuid>, tag: int): set<Uuid> {
    MembersById(t, e, ids) - Tagged(t, e, tag)
  }

  function ToUntag(t: Tables, e: Bytes, ids: seq<Uuid>, tag: int): set<Uuid> {
    MembersById(t, e, ids) * Tagged(t, e, tag)
  }

  function AddTagToMembers(t: Tables, e: Bytes, ids: seq<Uuid>, tag: int): Option<Tables> {
    if e == [] then None
    else if ids == [] then Some(t)
    else if !TagOf(t, e, tag) then None
    else Some(MapTags(t, ToTag(t, e, ids, tag), tags => tags + [tag]))
  }

  function RemoveTagFromMembers(t: Tables, e: Bytes, ids: seq<Uuid>, tag: int): Option<Tables> {
    if e == [] then None
    else if ids == [] then Some(t)
    else if !TagOf(t, e, tag) then None
    else Some(MapTags(t, ToUntag(t, e, ids, tag), tags => Without(tags, tag)))
  }

  // ---------- Targets ----------

  function AddTarget(t: Tables, e: Bytes, owner: Bytes, name: string, id: Uuid): Option<Tables> {
    if e == [] || (owner != [] && owner != e) then None
    else InsertRow(t, TargetRow(id, Target(e, name)))
  }

  // ---------- Censuses ----------

  function CensusFrom(e: Bytes, target: Uuid, info: Option<CensusInfo>): Census {
    match info
    case None => Census(e, target, "", [], "", 0, false)
    case Some(i) => Census(e, target, i.name, i.root, i.uri, i.size, i.ephemeral)
  }

  function AddCensus(t: Tables, e: Bytes, c: Bytes, target: Uuid, info: Option<CensusInfo>): Option<Tables> {
    if e == [] || c == [] || target == NIL_UUID then None
    else InsertRow(t, CensusRow(c, CensusFrom(e, target, info)))
  }

  predicate CensusOf(t: Tables, e: Bytes, c: Bytes) {
    e != [] && c != [] && c in t.censuses && t.censuses[c].entity == e
  }

  function UpdateCensus(t: Tables, e: Bytes, c: Bytes, info: Option<CensusInfo>): Option<Tables> {
    if e == [] || c == [] || info.None? then None
    else if !CensusOf(t, e, c) then Some(t)
    else
      var o, i := t.censuses[c], info.value;
      Some(t.(censuses := t.censuses[c := o.(root := if i.root == [] then o.root else i.root,
                                               uri := OrElse(i.uri, o.uri))]))
  }

  function DeleteCensus(t: Tables, e: Bytes, c: Bytes): Option<Tables> {
    if CensusOf(t, e, c) then Some(WithoutCensus(t, c)) else None
  }

  predicate HasValidKey(m: Member) {
    m.key.Some? && ValidPubKey(m.key.value)
  }

  // A member takes part in a census when its key is valid, or with a generated
  // key when the census is ephemeral.
  predicate Eligible(m: Member, c: Census) {
    HasValidKey(m) || c.ephemeral
  }

  function EligibleIds(t: Tables, e: Bytes, c: Census): set<Uuid> {
    set a | a in t.members && t.members[a].entity == e && Eligible(t.members[a], c)
  }

  function CensusEntry(m: Member, generated: KeyPair): CensusMember {
    if HasValidKey(m) then CensusMember(false, None, m.key.value, None)
    else CensusMember(true, Some(generated.public), generated.public, Some(generated.private))
  }

  // The members that have a census_members row in a census.
  function RowIds(rows: map<(Uuid, Bytes), CensusMember>, c: Bytes): set<Uuid> {
    set p | p in rows && p.1 == c :: p.0
  }

  function NewRows(t: Tables, c: Bytes, ids: set<Uuid>, keys: Uuid -> KeyPair): map<(Uuid, Bytes), CensusMember>
    requires ids <= t.members.Keys
  {
    map a | a in ids :: (a, c) := CensusEntry(t.members[a], keys(a))
  }

  function ExpandCensus(t: Tables, e: Bytes, c: Bytes, keys: Uuid -> KeyPair): Option<Tables> {
    if !CensusOf(t, e, c) then None
    else
      var ids := EligibleIds(t, e, t.censuses[c]);
      if exists a :: a in ids && (a, c) in t.rows then None
      else Some(t.(
        rows := t.rows + NewRows(t, c, ids, keys),
        censuses := t.censuses[c := t.censuses[c].(size := |ids|)]))
  }

  // ---------- Steps and runs ----------

  datatype Op =
    | AddEntityOp(entity: Bytes, entityInfo: EntityInfo)
    | DeleteEntityOp(entity: Bytes)
    | UpdateEntityOp(entity: Bytes, entityInfo: EntityInfo)
    | AuthorizeEntityOp(entity: Bytes)
    | AddMemberOp(entity: Bytes, memberKey: Option<Bytes>, info: MemberInfo, id: Uuid, now: int)
    | CreateMembersWithTokensOp(entity: Bytes, tokens: seq<Uuid>, now: int)
    | ImportMembersOp(entity: Bytes, infos: seq<MemberInfo>, gen: nat -> Uuid, now: int)
    | AddMemberBulkOp(entity: Bytes, members: seq<NewMember>, gen: nat -> Uuid, now: int)
    | RegisterMemberOp(entity: Bytes, pubKey: Bytes, id: Uuid, now: int)
    | UpdateMemberOp(entity: Bytes, id: Uuid, info: MemberInfo, now: int)
    | DeleteMemberOp(entity: Bytes, id: Uuid)
    | DeleteMembersOp(entity: Bytes, ids: seq<Uuid>)
    | DeleteMembersByKeysOp(entity: Bytes, keyList: seq<Bytes>)
    | AddTagOp(entity: Bytes, name: string)
    | DeleteTagOp(entity: Bytes, tag: int)
    | AddTagToMembersOp(entity: Bytes, ids: seq<Uuid>, tag: int)
    | RemoveTagFromMembersOp(entity: Bytes, ids: seq<Uuid>, tag: int)
    | AddTargetOp(entity: Bytes, owner: Bytes, name: string, id: Uuid)
    | AddCensusOp(entity: Bytes, census: Bytes, target: Uuid, censusInfo: Option<CensusInfo>)
    | UpdateCensusOp(entity: Bytes, census: Bytes, censusInfo: Option<CensusInfo>)
    | DeleteCensusOp(entity: Bytes, census: Bytes)
    | ExpandCensusOp(entity: Bytes, census: Bytes, keys: Uuid -> KeyPair)

  // The steps by what they do: AddTag is in none of these groups, as it may change the sequence without success.
  predicate InsertsLists(op: Op) {
    op.AddEntityOp? || op.CreateMembersWithTokensOp? || op.ImportMembersOp? || op.AddMemberBulkOp?
  }

  predicate Inserting(op: Op) {
    InsertsLists(op) || op.AddMemberOp? || op.AddTargetOp? || op.AddCensusOp?
  }

  predicate Deleting(op: Op) {
    op.DeleteEntityOp? || op.DeleteMemberOp? || op.DeleteMembersOp? || op.DeleteMembersByKeysOp? || op.DeleteCensusOp?
  }

  predicate Tagging(op: Op) {
    op.DeleteTagOp? || op.AddTagToMembersOp? || op.RemoveTagFromMembersOp?
  }

  predicate Changing(op: Op) {
    op.UpdateEntityOp? || op.AuthorizeEntityOp? || op.RegisterMemberOp? || op.UpdateMemberOp?
    || op.UpdateCensusOp? || op.ExpandCensusOp?
  }

  // The tables a step leaves when it succeeds; None when it returns an error.
  function Try(t: Tables, op: Op): Option<Tables> {
    match op
    case AddEntityOp(e, info) => AddEntity(t, e, info)
    case DeleteEntityOp(e) => DeleteEntity(t, e)
    case UpdateEntityOp(e, info) => Some(UpdateEntity(t, e, info))
    case AuthorizeEntityOp(e) => AuthorizeEntity(t, e)
    case AddMemberOp(e, key, info, id, now) => AddMember(t, e, key, info, id, now)
    case CreateMembersWithTokensOp(e, tokens, now) => CreateMembersWithTokens(t, e, tokens, now)
    case ImportMembersOp(e, infos, gen, now) => ImportMembers(t, e, infos, gen, now)
    case AddMemberBulkOp(e, members, gen, now) => AddMemberBulk(t, e, members, gen, now)
    case RegisterMemberOp(e, key, id, now) => RegisterMember(t, e, key, id, now)
    case UpdateMemberOp(e, id, info, now) => UpdateMember(t, e, id, info, now)
    case DeleteMemberOp(e, id) => DeleteMember(t, e, id)
    case DeleteMembersOp(e, ids) => DeleteMembers(t, e, ids)
    case DeleteMembersByKeysOp(e, keys) => DeleteMembersByKeys(t, e, keys)
    case AddTagOp(e, name) => if AddTagOk(t, e, name) then Some(AddTag(t, e, name)) else None
    case DeleteTagOp(e, tag) => DeleteTag(t, e, tag)
    case AddTagToMembersOp(e, ids, tag) => AddTagToMembers(t, e, ids, tag)
    case RemoveTagFromMembersOp(e, ids, tag) => RemoveTagFromMembers(t, e, ids, tag)
    case AddTargetOp(e, owner, name, id) => AddTarget(t, e, owner, name, id)
    case AddCensusOp(e, c, target, info) => AddCensus(t, e, c, target, info)
    case UpdateCensusOp(e, c, info) => UpdateCensus(t, e, c, info)
    case DeleteCensusOp(e, c) => DeleteCensus(t, e, c)
    case ExpandCensusOp(e, c, keys) => ExpandCensus(t, e, c, keys)
  }

  // The tables after a step, successful or not.
  function Apply(t: Tables, op: Op): Tables {
    match op
    case AddTagOp(e, name) => AddTag(t, e, name)
    case _ => match Try(t, op) case Some(t1) => t1 case None => t
  }

  function Run(t: Tables, ops: seq<Op>): Tables
    decreases |ops|
  {
    if ops == [] then t else Run(Apply(t, ops[0]), ops[1..])
  }
}
