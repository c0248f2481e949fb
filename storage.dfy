/**
 * The keyed record store of js/storage.js. Browser `localStorage` holds three
 * entries: the users collection, the projects collection (each a JSON object
 * keyed by username or project id) and the current-session username. A
 * `Store` object holds the decoded value of each; a collection that is not
 * stored at all is `None`, which every reader treats as the empty object.
 */
module Storage {
  import opened Wrappers

  /** A JSON value held in an element's property object. */
  datatype Json = Str(s: string) | Num(n: nat) | Null {
    /** JavaScript truthiness: "", 0 and null are falsy. */
    predicate Truthy() {
      match this
      case Str(s) => s != ""
      case Num(n) => n != 0
      case Null => false
    }
  }

  /** One stored visual-editor element: `{type, content, properties}`. */
  datatype ElementData = ElementData(kind: string, content: string, properties: map<string, Json>)

  /** A user record: `{username, email, password, createdAt}`. */
  datatype User = User(username: string, email: string, password: string, createdAt: string)

  /**
   * A project document. `id` is None for a stored record without its own
   * `id` field; `editorType` is the record's `type` ("code" or "visual").
   */
  datatype Project = Project(
    id: Option<string>, title: string, owner: string, editorType: string,
    createdAt: string, lastModified: string,
    html: string, css: string, js: string, elements: seq<ElementData>)

  /** What `init` does to one collection: create it empty only when it is missing. */
  function InitCollection<V>(c: Option<map<string, V>>): (r: Option<map<string, V>>)
    ensures r.Some? && r.value == c.GetOr(map[])
  {
    if c.None? then Some(map[]) else c
  }

  lemma InitCollectionIdempotent<V>(c: Option<map<string, V>>)
    ensures InitCollection(InitCollection(c)) == InitCollection(c)
  {
  }

  /**
   * The listing entry for a stored project: `{id: key, ...record}`, so the
   * stored record's own `id`, when it has one, wins over the key.
   */
  function Listed(key: string, p: Project): (r: Project)
    ensures r.id == Some(if p.id.Some? then p.id.value else key)
    ensures r.(id := p.id) == p
  {
    if p.id.Some? then p else p.(id := Some(key))
  }

  /** `entry` is the listing entry of some project `username` owns. */
  predicate OwnedEntry(projects: map<string, Project>, username: string, entry: Project) {
    exists k :: k in projects && projects[k].owner == username && entry == Listed(k, projects[k])
  }

  /** A listing that pairs each entry with an owned key, every owned key among them, lists exactly the owned projects. */
  lemma ListingCovers(projects: map<string, Project>, username: string, list: seq<Project>, keys: seq<string>)
    requires |keys| == |list|
    requires forall k :: k in keys <==> k in projects && projects[k].owner == username
    requires forall i :: 0 <= i < |list| ==> keys[i] in projects && list[i] == Listed(keys[i], projects[keys[i]])
    ensures forall entry :: entry in list ==> OwnedEntry(projects, username, entry)
    ensures forall k :: k in projects && projects[k].owner == username ==> Listed(k, projects[k]) in list
  {
    forall entry | entry in list
      ensures OwnedEntry(projects, username, entry)
    {
      var i :| 0 <= i < |list| && list[i] == entry;
      assert keys[i] in keys;
    }
    forall k | k in projects && projects[k].owner == username
      ensures Listed(k, projects[k]) in list
    {
      var i :| 0 <= i < |keys| && keys[i] == k;
      assert list[i] == Listed(keys[i], projects[keys[i]]);
    }
  }

  class Store {
    var users: Option<map<string, User>>
    var projects: Option<map<string, Project>>
    var session: Option<string>

    /** A browser whose storage already holds the given entries. */
    constructor (users: Option<map<string, User>>, projects: Option<map<string, Project>>, session: Option<string>)
      ensures this.users == users && this.projects == projects && this.session == session
    {
      this.users, this.projects, this.session := users, projects, session;
    }

    /** `getUsers()`: the stored users object, or {} when none is stored. */
    function Users(): map<string, User>
      reads this
    {
      users.GetOr(map[])
    }

    /** `getProjects()`. */
    function Projects(): map<string, Project>
      reads this
    {
      projects.GetOr(map[])
    }

    /** `getUser(username)`: the record, or null for an unknown username. */
    function GetUser(username: string): (r: Option<User>)
      reads this
      ensures r.Some? <==> username in Users()
      ensures r.Some? ==> r.value == Users()[username]
    {
      if username in Users() then Some(Users()[username]) else None
    }

    /** `getProject(projectId)`: the record, or null for an unknown id. */
    function GetProject(projectId: string): (r: Option<Project>)
      reads this
      ensures r.Some? <==> projectId in Projects()
      ensures r.Some? ==> r.value == Projects()[projectId]
    {
      if projectId in Projects() then Some(Projects()[projectId]) else None
    }

    /** `init()`: create each missing collection empty; existing data is kept. */
    method Init()
      modifies this
      ensures users == InitCollection(old(users)) && projects == InitCollection(old(projects))
      ensures Users() == old(Users()) && Projects() == old(Projects())
      ensures session == old(session)
    {
      if users.None? { users := Some(map[]); }
      if projects.None? { projects := Some(map[]); }
    }

    /** `saveUser(username, userData)`: read the collection, overwrite one key, write it back. */
    method SaveUser(username: string, user: User)
      modifies this
      ensures users == Some(old(Users())[username := user])
      ensures GetUser(username) == Some(user)
      ensures forall k :: k != username ==> GetUser(k) == old(GetUser(k))
      ensures projects == old(projects) && session == old(session)
    {
      var all := Users();
      all := all[username := user];
      users := Some(all);
    }

    /** `saveProject(projectId, projectData)`. */
    method SaveProject(projectId: string, project: Project)
      modifies this
      ensures projects == Some(old(Projects())[projectId := project])
      ensures GetProject(projectId) == Some(project)
      ensures forall k :: k != projectId ==> GetProject(k) == old(GetProject(k))
      ensures users == old(users) && session == old(session)
    {
      var all := Projects();
      all := all[projectId := project];
      projects := Some(all);
    }

    /**
     * `deleteProject(projectId)`: true and the key removed when it was
     * present; otherwise false and nothing written.
     */
    method DeleteProject(projectId: string) returns (existed: bool)
      modifies this
      ensures existed <==> projectId in old(Projects())
      ensures existed ==> projects == Some(old(Projects()) - {projectId})
      ensures !existed ==> projects == old(projects)
      ensures GetProject(projectId) == None
      ensures forall k :: k != projectId ==> GetProject(k) == old(GetProject(k))
      ensures users == old(users) && session == old(session)
    {
      var all := Projects();
      if projectId in all {
        all := all - {projectId};
        projects := Some(all);
        return true;
      }
      return false;
    }

    /**
     * `getUserProjects(username)`: one listing entry per stored project whose
     * owner is `username`. `keys` (ghost) gives the key each entry came from.
     */
    method GetUserProjects(username: string) returns (list: seq<Project>, ghost keys: seq<string>)
      ensures |keys| == |list|
      ensures forall i, j :: 0 <= i < j < |keys| ==> keys[i] != keys[j]
      ensures forall k :: k in keys <==> k in Projects() && Projects()[k].owner == username
      ensures forall i :: 0 <= i < |list| ==> keys[i] in Projects() && list[i] == Listed(keys[i], Projects()[keys[i]])
      ensures forall entry :: entry in list ==> OwnedEntry(Projects(), username, entry)
      ensures forall k :: k in Projects() && Projects()[k].owner == username ==> Listed(k, Projects()[k]) in list
    {
      var all := Projects();
      var remaining := all.Keys;
      list, keys := [], [];
      while remaining != {}
        invariant remaining <= all.Keys
        invariant |keys| == |list|
        invariant forall i, j :: 0 <= i < j < |keys| ==> keys[i] != keys[j]
        invariant forall k :: k in keys ==> k in all && k !in remaining && all[k].owner == username
        invariant forall k :: k in all && k !in remaining && all[k].owner == username ==> k in keys
        invariant forall i :: 0 <= i < |list| ==> keys[i] in all && list[i] == Listed(keys[i], all[keys[i]])
        decreases remaining
      {
        var key :| key in remaining;
        if all[key].owner == username {
          list := list + [Listed(key, all[key])];
          keys := keys + [key];
        }
        remaining := remaining - {key};
      }
      ListingCovers(all, username, list, keys);
    }

    /** The session entry is written: `localStorage.setItem('webcraft_current_user', username)`. */
    method SetSession(username: string)
      modifies this
      ensures session == Some(username)
      ensures users == old(users) && projects == old(projects)
    {
      session := Some(username);
    }

    /** `clearAll()`: remove all three entries, then `init()`. */
    method ClearAll()
      modifies this
      ensures users == Some(map[]) && projects == Some(map[]) && session == None
    {
      users, projects, session := None, None, None;
      Init();
    }
  }
}
