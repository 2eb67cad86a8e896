/**
 * The project list page of the web client (project-list.component.ts): the projects
 * with their document counts, and the create-project dialog. The per-project document
 * requests of `loadProjectStats` answer in any order; their replies are given in
 * arrival order.
 */
module ProjectList {
  import opened Wrappers
  import opened Sequences
  import opened Records

  /** A project card: the project's fields and its document count. */
  datatype ProjectWithStats = ProjectWithStats(project: Project, documentCount: nat)

  /** The reply to the document request for `projects[projectIndex]`: the number of documents the
      server listed, or `None` when the request failed. */
  datatype StatsReply = StatsReply(projectIndex: nat, documents: Option<nat>)

  /** The dialog's `newProject`. */
  datatype ProjectForm = ProjectForm(name: string, description: string)

  const EmptyForm := ProjectForm("", "")

  function ReplyIndices(replies: seq<StatsReply>): seq<int> {
    seq(|replies|, k requires 0 <= k < |replies| => replies[k].projectIndex as int)
  }

  /** Each reply answers one of the requests issued for a list of `n` projects. */
  predicate AnswersAmong(n: nat, replies: seq<StatsReply>) {
    forall k :: 0 <= k < |replies| ==> replies[k].projectIndex < n
  }

  /** Replies that can arrive for a list of `n` projects: each answers one of the requests issued,
      and each request is answered at most once. */
  predicate RepliesFor(n: nat, replies: seq<StatsReply>) {
    AnswersAmong(n, replies) && Distinct(ReplyIndices(replies))
  }

  /** The card a reply adds: the project, with the count of its documents or 0 if the request failed. */
  function StatsEntry(projects: seq<Project>, r: StatsReply): ProjectWithStats
    requires r.projectIndex < |projects|
  {
    ProjectWithStats(projects[r.projectIndex], r.documents.GetOr(0))
  }

  /** The cards after the given replies, in arrival order: one card per reply, each copying its
      project and carrying its count or 0. */
  function StatsEntries(projects: seq<Project>, replies: seq<StatsReply>): (cards: seq<ProjectWithStats>)
    requires AnswersAmong(|projects|, replies)
    ensures |cards| == |replies|
    ensures forall k :: 0 <= k < |replies| ==>
      cards[k].project == projects[replies[k].projectIndex] &&
      cards[k].documentCount == (if replies[k].documents.Some? then replies[k].documents.value else 0)
  {
    seq(|replies|, k requires 0 <= k < |replies| => StatsEntry(projects, replies[k]))
  }

  /** There are never more cards than projects. */
  lemma StatsBounded(projects: seq<Project>, replies: seq<StatsReply>)
    requires RepliesFor(|projects|, replies)
    ensures |StatsEntries(projects, replies)| <= |projects|
  {
    DistinctBelow(ReplyIndices(replies), |projects|);
  }

  /** Each project has at most one card. */
  lemma OneCardPerProject(projects: seq<Project>, replies: seq<StatsReply>, i: nat, j: nat)
    requires RepliesFor(|projects|, replies)
    requires i < j < |replies|
    ensures replies[i].projectIndex != replies[j].projectIndex
  {
    assert ReplyIndices(replies)[i] != ReplyIndices(replies)[j];
  }

  class ProjectListComponent {
    var projects: seq<Project>
    var projectsWithStats: seq<ProjectWithStats>
    var showCreateProject: bool
    var newProject: ProjectForm

    /** The cards never outnumber the projects. */
    predicate Valid()
      reads this
    {
      |projectsWithStats| <= |projects|
    }

    /** The field initialisers. */
    constructor()
      ensures Valid()
      ensures projects == [] && projectsWithStats == [] && !showCreateProject && newProject == EmptyForm
    {
      projects := [];
      projectsWithStats := [];
      showCreateProject := false;
      newProject := EmptyForm;
    }

    /** `loadProjectStats`: the cards are emptied, then each reply pushes one card as it arrives. */
    method LoadProjectStats(replies: seq<StatsReply>)
      requires RepliesFor(|projects|, replies)
      modifies this`projectsWithStats
      ensures Valid()
      ensures projectsWithStats == StatsEntries(projects, replies)
    {
      projectsWithStats := [];
      var k := 0;
      while k < |replies|
        invariant 0 <= k <= |replies|
        invariant projectsWithStats == StatsEntries(projects, replies[..k])
      {
        var r := replies[k];
        projectsWithStats := projectsWithStats + [ProjectWithStats(projects[r.projectIndex], if r.documents.Some? then r.documents.value else 0)];
        k := k + 1;
      }
      assert replies[..k] == replies;
      StatsBounded(projects, replies);
    }

    /** `loadProjects`: `fetched` is the server's project list (`None` on failure, which only logs);
        on success the stats are reloaded, `replies` being the replies to their requests. */
    method LoadProjects(fetched: Option<seq<Project>>, replies: seq<StatsReply>)
      requires Valid()
      requires fetched.Some? ==> RepliesFor(|fetched.value|, replies)
      modifies this`projects, this`projectsWithStats
      ensures Valid()
      ensures fetched.Some? ==> projects == fetched.value && projectsWithStats == StatsEntries(projects, replies)
      ensures fetched.None? ==> projects == old(projects) && projectsWithStats == old(projectsWithStats)
    {
      if fetched.Some? {
        projects := fetched.value;
        LoadProjectStats(replies);
      }
    }

    /** `createProject`: an empty name sends nothing. Otherwise the request is sent (the returned
        form); `created` is its outcome, and a success closes the dialog, empties the form and
        reloads the projects. */
    method CreateProject(created: bool, fetched: Option<seq<Project>>, replies: seq<StatsReply>) returns (request: Option<ProjectForm>)
      requires Valid()
      requires fetched.Some? ==> RepliesFor(|fetched.value|, replies)
      modifies this`projects, this`projectsWithStats, this`showCreateProject, this`newProject
      ensures Valid()
      ensures old(newProject).name == "" ==> request == None
      ensures old(newProject).name != "" ==> request == Some(old(newProject))
      ensures request.Some? && created ==>
        !showCreateProject && newProject == EmptyForm &&
        (fetched.Some? ==> projects == fetched.value && projectsWithStats == StatsEntries(projects, replies)) &&
        (fetched.None? ==> projects == old(projects) && projectsWithStats == old(projectsWithStats))
      ensures !(request.Some? && created) ==>
        projects == old(projects) && projectsWithStats == old(projectsWithStats) &&
        showCreateProject == old(showCreateProject) && newProject == old(newProject)
    {
      if newProject.name == "" {
        return None;
      }
      request := Some(newProject);
      if created {
        showCreateProject := false;
        newProject := EmptyForm;
        LoadProjects(fetched, replies);
      }
    }
  }
}
