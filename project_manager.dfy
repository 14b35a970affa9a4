/**
 * The project history kept by the project manager: a list of project records, newest first,
 * and a block of activity counters.  Loading and saving the JSON file, the clock and the
 * generated project ids are outside the model: timestamps and ids are parameters.
 */
module ProjectManager {
  import opened Wrappers
  import opened PyStr

  datatype FileRecord = FileRecord(path: string, fileType: string, addedAt: string)

  datatype Project = Project(
    id: string,
    title: string,
    projectType: string,
    createdAt: string,
    updatedAt: string,
    status: string,
    files: seq<FileRecord>,
    metadata: map<string, string>,
    thumbnail: Option<string>,
    tags: seq<string>)

  /** The keys an `update_project` call may set; `None` leaves the field as it is. */
  datatype ProjectUpdate = ProjectUpdate(
    title: Option<string>,
    projectType: Option<string>,
    status: Option<string>,
    files: Option<seq<FileRecord>>,
    metadata: Option<map<string, string>>,
    thumbnail: Option<Option<string>>,
    tags: Option<seq<string>>)

  datatype Stats = Stats(totalBooks: nat, totalCovers: nat, totalConversions: nat, totalWatermarks: nat,
                         lastActivity: Option<string>)

  /** `_init_stats`. */
  function InitStats(): Stats
  {
    Stats(0, 0, 0, 0, None)
  }

  /** The stats after `_update_stats(projectType)` at time `now`. */
  function Bumped(s: Stats, projectType: string, now: string): Stats
  {
    var t := s.(lastActivity := Some(now));
    if projectType == "ebook" then t.(totalBooks := s.totalBooks + 1)
    else if projectType == "cover" then t.(totalCovers := s.totalCovers + 1)
    else if projectType == "conversion" then t.(totalConversions := s.totalConversions + 1)
    else if projectType == "watermark" then t.(totalWatermarks := s.totalWatermarks + 1)
    else t
  }

  function Total(s: Stats): nat
  {
    s.totalBooks + s.totalCovers + s.totalConversions + s.totalWatermarks
  }

  /**
   * `_update_stats` records the activity time and adds one to exactly the counter of a known
   * project type; any other type leaves every counter as it was.
   */
  lemma BumpedSpec(s: Stats, projectType: string, now: string)
    ensures Bumped(s, projectType, now).lastActivity == Some(now)
    ensures Total(Bumped(s, projectType, now)) ==
              Total(s) + (if projectType in {"ebook", "cover", "conversion", "watermark"} then 1 else 0)
    ensures Bumped(s, projectType, now).totalBooks == s.totalBooks + (if projectType == "ebook" then 1 else 0)
    ensures Bumped(s, projectType, now).totalCovers == s.totalCovers + (if projectType == "cover" then 1 else 0)
    ensures Bumped(s, projectType, now).totalConversions == s.totalConversions + (if projectType == "conversion" then 1 else 0)
    ensures Bumped(s, projectType, now).totalWatermarks == s.totalWatermarks + (if projectType == "watermark" then 1 else 0)
  {
  }

  /** `project.update(updates)` followed by the new `updated_at`. */
  function Applied(p: Project, u: ProjectUpdate, now: string): Project
  {
    p.(title := u.title.GetOr(p.title),
       projectType := u.projectType.GetOr(p.projectType),
       status := u.status.GetOr(p.status),
       files := u.files.GetOr(p.files),
       metadata := u.metadata.GetOr(p.metadata),
       thumbnail := u.thumbnail.GetOr(p.thumbnail),
       tags := u.tags.GetOr(p.tags),
       updatedAt := now)
  }

  /**
   * An update keeps the id and creation time, takes every given value, keeps every field it
   * does not give, and stamps the update time.
   */
  lemma AppliedSpec(p: Project, u: ProjectUpdate, now: string)
    ensures var q := Applied(p, u, now);
            q.id == p.id && q.createdAt == p.createdAt && q.updatedAt == now
    ensures var q := Applied(p, u, now);
            (u.title.Some? ==> q.title == u.title.value) && (u.title.None? ==> q.title == p.title) &&
            (u.projectType.Some? ==> q.projectType == u.projectType.value) &&
            (u.projectType.None? ==> q.projectType == p.projectType) &&
            (u.status.Some? ==> q.status == u.status.value) && (u.status.None? ==> q.status == p.status)
    ensures var q := Applied(p, u, now);
            (u.files.Some? ==> q.files == u.files.value) && (u.files.None? ==> q.files == p.files) &&
            (u.metadata.Some? ==> q.metadata == u.metadata.value) &&
            (u.metadata.None? ==> q.metadata == p.metadata) &&
            (u.thumbnail.Some? ==> q.thumbnail == u.thumbnail.value) &&
            (u.thumbnail.None? ==> q.thumbnail == p.thumbnail) &&
            (u.tags.Some? ==> q.tags == u.tags.value) && (u.tags.None? ==> q.tags == p.tags)
  {
  }

  /** The position of the first project with the id, or -1. */
  function IndexOf(ps: seq<Project>, id: string): (r: int)
    ensures -1 <= r < |ps|
    ensures r >= 0 ==> ps[r].id == id && forall k :: 0 <= k < r ==> ps[k].id != id
    ensures r == -1 ==> forall k :: 0 <= k < |ps| ==> ps[k].id != id
  {
    if ps == [] then -1
    else if ps[0].id == id then 0
    else
      var r := IndexOf(ps[1..], id);
      if r < 0 then -1 else r + 1
  }

  /** The projects whose id differs, in stored order. */
  function WithoutId(ps: seq<Project>, id: string): (r: seq<Project>)
    ensures |r| <= |ps|
  {
    if ps == [] then []
    else (if ps[0].id == id then [] else [ps[0]]) + WithoutId(ps[1..], id)
  }

  /**
   * Deleting keeps exactly the projects with another id, in order, and shortens the list
   * exactly when some project had the id.
   */
  lemma WithoutIdSpec(ps: seq<Project>, id: string)
    ensures forall p :: p in WithoutId(ps, id) <==> p in ps && p.id != id
    ensures |WithoutId(ps, id)| < |ps| <==> exists k :: 0 <= k < |ps| && ps[k].id == id
    ensures (forall k :: 0 <= k < |ps| ==> ps[k].id != id) ==> WithoutId(ps, id) == ps
  {
    WithoutIdMembers(ps, id);
    WithoutIdShorter(ps, id);
  }

  lemma {:induction false} WithoutIdMembers(ps: seq<Project>, id: string)
    ensures forall p :: p in WithoutId(ps, id) <==> p in ps && p.id != id
    decreases |ps|
  {
    if ps != [] {
      WithoutIdMembers(ps[1..], id);
      var head := if ps[0].id == id then [] else [ps[0]];
      assert WithoutId(ps, id) == head + WithoutId(ps[1..], id);
      assert ps == [ps[0]] + ps[1..];
    }
  }

  /** The list shrinks exactly when some project has the id, and is unchanged otherwise. */
  lemma {:induction false} WithoutIdShorter(ps: seq<Project>, id: string)
    ensures |WithoutId(ps, id)| < |ps| <==> exists k :: 0 <= k < |ps| && ps[k].id == id
    ensures (forall k :: 0 <= k < |ps| ==> ps[k].id != id) ==> WithoutId(ps, id) == ps
    decreases |ps|
  {
    if ps != [] {
      var rest := ps[1..];
      WithoutIdShorter(rest, id);
      if exists k :: 0 <= k < |ps| && ps[k].id == id {
        var k :| 0 <= k < |ps| && ps[k].id == id;
        if k > 0 {
          assert rest[k - 1].id == id;
        }
      }
      if exists k :: 0 <= k < |rest| && rest[k].id == id {
        var k :| 0 <= k < |rest| && rest[k].id == id;
        assert ps[k + 1].id == id;
      }
      if forall k :: 0 <= k < |ps| ==> ps[k].id != id {
        assert forall k :: 0 <= k < |rest| ==> rest[k] == ps[k + 1];
        assert ps == [ps[0]] + rest;
      }
    }
  }

  /** The projects of one type, in stored order. */
  function OfType(ps: seq<Project>, projectType: string): (r: seq<Project>)
    ensures |r| <= |ps|
    ensures forall p :: p in r <==> p in ps && p.projectType == projectType
  {
    if ps == [] then []
    else (if ps[0].projectType == projectType then [ps[0]] else []) + OfType(ps[1..], projectType)
  }

  /**
   * The filters keep stored order: filtering a concatenation filters each part, so a
   * project that came before another still does.
   */
  lemma {:induction false} WithoutIdAppend(a: seq<Project>, b: seq<Project>, id: string)
    ensures WithoutId(a + b, id) == WithoutId(a, id) + WithoutId(b, id)
    decreases |a|
  {
    if a != [] {
      assert (a + b)[1..] == a[1..] + b;
      WithoutIdAppend(a[1..], b, id);
    } else {
      assert a + b == b;
    }
  }

  lemma {:induction false} OfTypeAppend(a: seq<Project>, b: seq<Project>, projectType: string)
    ensures OfType(a + b, projectType) == OfType(a, projectType) + OfType(b, projectType)
    decreases |a|
  {
    if a != [] {
      assert (a + b)[1..] == a[1..] + b;
      OfTypeAppend(a[1..], b, projectType);
    } else {
      assert a + b == b;
    }
  }

  /** Python `xs[:limit]` for an integer `limit`: a negative limit counts from the end. */
  function PrefixLength(n: nat, limit: int): (k: nat)
    ensures k <= n
  {
    if limit >= 0 then (if limit < n then limit else n)
    else if n + limit > 0 then n + limit else 0
  }

  /** Whether a project matches a lower-cased query: in its lower-cased title or in one of its lower-cased tags. */
  predicate Matches(p: Project, query: string)
  {
    Contains(Lower(p.title), query) || exists t :: t in p.tags && Contains(Lower(t), query)
  }

  /** The matching projects, in stored order. */
  function Matching(ps: seq<Project>, query: string): (r: seq<Project>)
    ensures |r| <= |ps|
  {
    if ps == [] then []
    else
      var rest := Matching(ps[..|ps| - 1], query);
      if Matches(ps[|ps| - 1], query) then rest + [ps[|ps| - 1]] else rest
  }

  /** Search results are exactly the matching projects. */
  lemma {:induction false} MatchingSpec(ps: seq<Project>, query: string)
    ensures forall p :: p in Matching(ps, query) <==> p in ps && Matches(p, query)
  {
    if ps != [] {
      var init := ps[..|ps| - 1];
      MatchingSpec(init, query);
      assert ps == init + [ps[|ps| - 1]];
    }
  }

  lemma {:induction false} MatchingAppend(a: seq<Project>, b: seq<Project>, query: string)
    ensures Matching(a + b, query) == Matching(a, query) + Matching(b, query)
    decreases |b|
  {
    if b == [] {
      assert a + b == a;
    } else {
      var init := b[..|b| - 1];
      assert (a + b)[..|a + b| - 1] == a + init;
      MatchingAppend(a, init, query);
    }
  }

  /** `_should_ignore_file`. */
  predicate ShouldIgnoreFile(filename: string)
  {
    filename in [".gitkeep", "README.md"] || StartsWith(filename, "_") || StartsWith(filename, "test-")
  }

  class ProjectManager {
    var projects: seq<Project>
    var stats: Stats

    /** The state `_load_projects` yields: the stored history, or an empty one when there is none or it cannot be read. */
    constructor (stored: Option<(seq<Project>, Stats)>)
      ensures stored.None? ==> projects == [] && stats == InitStats()
      ensures stored.Some? ==> projects == stored.value.0 && stats == stored.value.1
    {
      if stored.None? {
        projects := [];
        stats := InitStats();
      } else {
        projects := stored.value.0;
        stats := stored.value.1;
      }
    }

    /** `_update_stats`. */
    method UpdateStats(projectType: string, now: string)
      modifies this
      ensures stats == Bumped(old(stats), projectType, now)
      ensures projects == old(projects)
    {
      var s := stats.(lastActivity := Some(now));
      if projectType == "ebook" {
        s := s.(totalBooks := stats.totalBooks + 1);
      } else if projectType == "cover" {
        s := s.(totalCovers := stats.totalCovers + 1);
      } else if projectType == "conversion" {
        s := s.(totalConversions := stats.totalConversions + 1);
      } else if projectType == "watermark" {
        s := s.(totalWatermarks := stats.totalWatermarks + 1);
      }
      stats := s;
    }

    /**
     * `create_project`: a new draft record with no files goes first; the older ones follow
     * unchanged.  The clock is read three times (creation, update and the stats' last activity),
     * so each reading is a parameter of its own.
     */
    method CreateProject(title: string, projectType: string, projectId: string,
                         createdAt: string, updatedAt: string, activityAt: string,
                         metadata: map<string, string>, thumbnail: Option<string>, tags: seq<string>)
      returns (id: string)
      modifies this
      ensures id == projectId
      ensures |projects| == |old(projects)| + 1 && projects[1..] == old(projects)
      ensures projects[0] == Project(projectId, title, projectType, createdAt, updatedAt, "draft", [], metadata, thumbnail, tags)
      ensures stats == Bumped(old(stats), projectType, activityAt)
    {
      var project := Project(projectId, title, projectType, createdAt, updatedAt, "draft", [], metadata, thumbnail, tags);
      projects := [project] + projects;
      UpdateStats(projectType, activityAt);
      id := projectId;
    }

    /** The first loop of `update_project`, `add_file_to_project` and `get_project`. */
    method Find(id: string) returns (i: int)
      ensures i == IndexOf(projects, id)
    {
      i := 0;
      while i < |projects|
        invariant 0 <= i <= |projects|
        invariant forall k :: 0 <= k < i ==> projects[k].id != id
      {
        if projects[i].id == id {
          return;
        }
        i := i + 1;
      }
      i := -1;
    }

    /** `update_project`: only the first project with the id changes; nothing changes when there is none. */
    method UpdateProject(id: string, updates: ProjectUpdate, now: string) returns (found: bool)
      modifies this
      ensures found <==> exists k :: 0 <= k < |old(projects)| && old(projects)[k].id == id
      ensures found ==> projects == old(projects)[IndexOf(old(projects), id) := Applied(old(projects)[IndexOf(old(projects), id)], updates, now)]
      ensures !found ==> projects == old(projects)
      ensures stats == old(stats)
    {
      var i := Find(id);
      if i < 0 {
        return false;
      }
      projects := projects[i := Applied(projects[i], updates, now)];
      return true;
    }

    /**
     * `add_file_to_project`: the first project with the id gains one file record at the end of
     * its files.  The clock is read twice, for the record's `added_at` and the project's
     * `updated_at`.
     */
    method AddFileToProject(id: string, path: string, fileType: string, addedAt: string, updatedAt: string)
      returns (found: bool)
      modifies this
      ensures found <==> exists k :: 0 <= k < |old(projects)| && old(projects)[k].id == id
      ensures found ==>
                var i := IndexOf(old(projects), id);
                var p := old(projects)[i];
                projects == old(projects)[i := p.(files := p.files + [FileRecord(path, fileType, addedAt)], updatedAt := updatedAt)]
      ensures !found ==> projects == old(projects)
      ensures stats == old(stats)
    {
      var i := Find(id);
      if i < 0 {
        return false;
      }
      var p := projects[i];
      projects := projects[i := p.(files := p.files + [FileRecord(path, fileType, addedAt)], updatedAt := updatedAt)];
      return true;
    }

    /** `get_project`: the first project with the id. */
    method GetProject(id: string) returns (p: Option<Project>)
      ensures p.Some? <==> exists k :: 0 <= k < |projects| && projects[k].id == id
      ensures p.Some? ==> p.value.id == id && p.value == projects[IndexOf(projects, id)]
    {
      var i := Find(id);
      if i < 0 {
        return None;
      }
      return Some(projects[i]);
    }

    /** `get_recent_projects`: a prefix of the stored list, filtered by type when a non-empty type is given. */
    function RecentProjects(limit: int, projectType: Option<string>): (r: seq<Project>)
      reads this
    {
      var ps := if projectType.Some? && projectType.value != [] then OfType(projects, projectType.value) else projects;
      ps[..PrefixLength(|ps|, limit)]
    }

    /** `search_projects`: the query is lower-cased and matched against titles and tags. */
    method SearchProjects(query: string) returns (results: seq<Project>)
      ensures results == Matching(projects, Lower(query))
    {
      var q := Lower(query);
      results := [];
      var i := 0;
      while i < |projects|
        invariant 0 <= i <= |projects|
        invariant results == Matching(projects[..i], q)
      {
        assert projects[..i + 1][..i] == projects[..i];
        var p := projects[i];
        var tagged := false;
        var j := 0;
        while j < |p.tags|
          invariant 0 <= j <= |p.tags|
          invariant tagged <==> exists t :: t in p.tags[..j] && Contains(Lower(t), q)
        {
          assert p.tags[..j + 1] == p.tags[..j] + [p.tags[j]];
          if Contains(Lower(p.tags[j]), q) {
            assert p.tags[j] in p.tags[..j + 1];
          }
          tagged := tagged || Contains(Lower(p.tags[j]), q);
          j := j + 1;
        }
        assert p.tags[..|p.tags|] == p.tags;
        if Contains(Lower(p.title), q) || tagged {
          results := results + [p];
        }
        i := i + 1;
      }
      assert projects[..|projects|] == projects;
    }

    /** `delete_project`: every project with the id goes; the result says whether any did. */
    method DeleteProject(id: string) returns (deleted: bool)
      modifies this
      ensures projects == WithoutId(old(projects), id)
      ensures deleted <==> exists k :: 0 <= k < |old(projects)| && old(projects)[k].id == id
      ensures stats == old(stats)
    {
      var initialLength := |projects|;
      projects := WithoutId(projects, id);
      WithoutIdSpec(old(projects), id);
      deleted := |projects| < initialLength;
    }

    /** `clear_project_history`: no projects, counters back to their initial values. */
    method ClearProjectHistory() returns (ok: bool)
      modifies this
      ensures projects == [] && stats == InitStats() && ok
    {
      projects := [];
      stats := InitStats();
      ok := true;
    }
  }

  /** The recent list is a prefix of the (filtered) stored list of at most `limit` projects. */
  lemma RecentProjectsSpec(m: ProjectManager, limit: int, projectType: Option<string>)
    ensures var r := m.RecentProjects(limit, projectType);
            var ps := if projectType.Some? && projectType.value != [] then OfType(m.projects, projectType.value) else m.projects;
            r == ps[..|r|] && (limit >= 0 ==> |r| == (if limit < |ps| then limit else |ps|)) &&
            (limit < 0 ==> |r| == (if |ps| + limit > 0 then |ps| + limit else 0)) &&
            (projectType.Some? && projectType.value != [] ==> forall p :: p in r ==> p.projectType == projectType.value)
  {
    var ps := if projectType.Some? && projectType.value != [] then OfType(m.projects, projectType.value) else m.projects;
    var r := m.RecentProjects(limit, projectType);
    forall p | p in r ensures p in ps {
      var k :| 0 <= k < |r| && r[k] == p;
      assert ps[k] == p;
    }
  }

  lemma ShouldIgnoreExamples()
    ensures ShouldIgnoreFile(".gitkeep") && ShouldIgnoreFile("README.md")
    ensures ShouldIgnoreFile("_draft.md") && ShouldIgnoreFile("test-cover.png")
    ensures !ShouldIgnoreFile("book.epub") && !ShouldIgnoreFile("readme.md")
  {
    assert "book.epub"[..1][0] == 'b' && "book.epub"[..5][0] == 'b';
    assert "readme.md"[..1][0] == 'r' && "readme.md"[..5][0] == 'r';
    assert "readme.md" != "README.md" && "readme.md" != ".gitkeep";
  }
}
