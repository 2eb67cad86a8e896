/**
 * The AutoShare configuration list of the desktop client (windows.py,
 * `AutoShareDialog`): each configuration names a user id and an access type;
 * `add_config` appends one for the first selected user unless that user already
 * has one, `remove_config` drops every configuration of every selected user,
 * and `refresh_config_list` renders one "username - accessType" line per configuration.
 */
module AutoShare {
  import opened Wrappers

  datatype User = User(id: int, username: string)
  datatype Config = Config(userId: int, accessType: string)

  const NoUserSelected := "Veuillez s\U{00E9}lectionner un utilisateur"
  const AlreadyConfigured := "Cet utilisateur a d\U{00E9}j\U{00E0} une configuration"
  const NoConfigSelected := "Veuillez s\U{00E9}lectionner une configuration \U{00E0} supprimer"
  const UnknownUser := "Utilisateur Inconnu"

  /** Some configuration already belongs to `userId`. */
  predicate HasConfigFor(configs: seq<Config>, userId: int) {
    exists k | 0 <= k < |configs| :: configs[k].userId == userId
  }

  /** No two configurations share a user id. */
  predicate DistinctUsers(configs: seq<Config>) {
    forall i, j :: 0 <= i < j < |configs| ==> configs[i].userId != configs[j].userId
  }

  /** `[c for c in configs if c['userId'] != userId]`. */
  function WithoutUser(configs: seq<Config>, userId: int): seq<Config> {
    if configs == [] then []
    else (if configs[0].userId != userId then [configs[0]] else []) + WithoutUser(configs[1..], userId)
  }

  /** The configurations whose user is not in `ids`, in their original order. */
  function WithoutUsers(configs: seq<Config>, ids: set<int>): (r: seq<Config>)
    ensures |r| <= |configs|
    ensures forall k :: 0 <= k < |r| ==> r[k].userId !in ids
  {
    if configs == [] then []
    else (if configs[0].userId !in ids then [configs[0]] else []) + WithoutUsers(configs[1..], ids)
  }

  /** Removing one more user after a batch is removing the enlarged batch. */
  lemma {:induction false} WithoutUsersStep(configs: seq<Config>, ids: set<int>, userId: int)
    ensures WithoutUser(WithoutUsers(configs, ids), userId) == WithoutUsers(configs, ids + {userId})
  {
    if configs != [] {
      WithoutUsersStep(configs[1..], ids, userId);
      var head := if configs[0].userId !in ids then [configs[0]] else [];
      WithoutUserAppend(head, WithoutUsers(configs[1..], ids), userId);
      if head != [] {
        assert head[1..] == [];
      }
    }
  }

  /** Filtering distributes over concatenation. */
  lemma {:induction false} WithoutUserAppend(a: seq<Config>, b: seq<Config>, userId: int)
    ensures WithoutUser(a + b, userId) == WithoutUser(a, userId) + WithoutUser(b, userId)
  {
    if a == [] {
      assert a + b == b;
    } else {
      var head := if a[0].userId != userId then [a[0]] else [];
      calc {
        WithoutUser(a + b, userId);
        { assert (a + b)[0] == a[0] && (a + b)[1..] == a[1..] + b; }
        head + WithoutUser(a[1..] + b, userId);
        { WithoutUserAppend(a[1..], b, userId); }
        head + (WithoutUser(a[1..], userId) + WithoutUser(b, userId));
      }
    }
  }

  /** A configuration survives removal exactly when it was there and its user was not selected. */
  lemma {:induction false} WithoutUsersMembers(configs: seq<Config>, ids: set<int>, c: Config)
    ensures c in WithoutUsers(configs, ids) <==> c in configs && c.userId !in ids
  {
    if configs != [] {
      WithoutUsersMembers(configs[1..], ids, c);
      assert configs == [configs[0]] + configs[1..];
    }
  }

  /** Removal keeps a list with distinct user ids distinct. */
  lemma {:induction false} WithoutUsersDistinct(configs: seq<Config>, ids: set<int>)
    requires DistinctUsers(configs)
    ensures DistinctUsers(WithoutUsers(configs, ids))
  {
    if configs != [] {
      WithoutUsersDistinct(configs[1..], ids);
      var rest := WithoutUsers(configs[1..], ids);
      forall c | c in rest ensures c.userId != configs[0].userId {
        WithoutUsersMembers(configs[1..], ids, c);
        var k :| 0 <= k < |configs[1..]| && configs[1..][k] == c;
        assert configs[k + 1] == c;
      }
    }
  }

  /** The first user with `id`, or "Utilisateur Inconnu". */
  function UserName(users: seq<User>, id: int): (name: string)
    ensures (forall k :: 0 <= k < |users| ==> users[k].id != id) ==> name == UnknownUser
    ensures forall k :: 0 <= k < |users| && users[k].id == id && FirstUserAt(users, k) ==> name == users[k].username
  {
    if users == [] then UnknownUser
    else if users[0].id == id then users[0].username
    else UserName(users[1..], id)
  }

  /** No user before `k` has the id of user `k`. */
  predicate FirstUserAt(users: seq<User>, k: int)
    requires 0 <= k < |users|
  {
    forall m :: 0 <= m < k ==> users[m].id != users[k].id
  }

  /** The list rows `refresh_config_list` shows: text and the user id stored with the row,
      one row per configuration, in list order. */
  function ConfigRows(users: seq<User>, configs: seq<Config>): (rows: seq<(string, int)>)
    ensures |rows| == |configs|
    ensures forall k :: 0 <= k < |configs| ==>
      rows[k] == (UserName(users, configs[k].userId) + " - " + configs[k].accessType, configs[k].userId)
  {
    if configs == [] then []
    else
      var row := (UserName(users, configs[0].userId) + " - " + configs[0].accessType, configs[0].userId);
      [row] + ConfigRows(users, configs[1..])
  }

  class AutoShareDialog {
    var users: seq<User>
    var currentConfigs: seq<Config>

    /** `users if users else []`, `current_configs if current_configs else []`. */
    constructor(users: seq<User>, currentConfigs: seq<Config>)
      ensures this.users == users && this.currentConfigs == currentConfigs
    {
      this.users := users;
      this.currentConfigs := currentConfigs;
    }

    /** The rows of the configuration list widget after `refresh_config_list`. */
    function Rows(): (rows: seq<(string, int)>)
      reads this
      ensures |rows| == |currentConfigs|
      ensures forall k :: 0 <= k < |currentConfigs| ==>
        rows[k] == (UserName(users, currentConfigs[k].userId) + " - " + currentConfigs[k].accessType, currentConfigs[k].userId)
    {
      ConfigRows(users, currentConfigs)
    }

    /** `add_config`: `selectedUserIds` are the user ids of the selected user rows. */
    method AddConfig(selectedUserIds: seq<int>, accessType: string) returns (warning: Option<string>)
      modifies this`currentConfigs
      ensures selectedUserIds == [] ==>
        warning == Some(NoUserSelected) && currentConfigs == old(currentConfigs)
      ensures selectedUserIds != [] && HasConfigFor(old(currentConfigs), selectedUserIds[0]) ==>
        warning == Some(AlreadyConfigured) && currentConfigs == old(currentConfigs)
      ensures selectedUserIds != [] && !HasConfigFor(old(currentConfigs), selectedUserIds[0]) ==>
        warning == None && currentConfigs == old(currentConfigs) + [Config(selectedUserIds[0], accessType)]
      ensures DistinctUsers(old(currentConfigs)) ==> DistinctUsers(currentConfigs)
    {
      if selectedUserIds == [] {
        return Some(NoUserSelected);
      }
      var userId := selectedUserIds[0];
      var present := false;
      var k := 0;
      while k < |currentConfigs|
        invariant 0 <= k <= |currentConfigs|
        invariant present <==> exists m | 0 <= m < k :: currentConfigs[m].userId == userId
      {
        if currentConfigs[k].userId == userId {
          present := true;
        }
        k := k + 1;
      }
      if present {
        return Some(AlreadyConfigured);
      }
      currentConfigs := currentConfigs + [Config(userId, accessType)];
      warning := None;
    }

    /** `remove_config`: `selectedUserIds` are the user ids stored with the selected configuration rows. */
    method RemoveConfig(selectedUserIds: seq<int>) returns (warning: Option<string>)
      modifies this`currentConfigs
      ensures selectedUserIds == [] ==>
        warning == Some(NoConfigSelected) && currentConfigs == old(currentConfigs)
      ensures selectedUserIds != [] ==>
        warning == None && currentConfigs == WithoutUsers(old(currentConfigs), IdSet(selectedUserIds))
    {
      if selectedUserIds == [] {
        return Some(NoConfigSelected);
      }
      ghost var original := currentConfigs;
      WithoutNobody(original);
      assert selectedUserIds[..0] == [];
      var i := 0;
      while i < |selectedUserIds|
        invariant 0 <= i <= |selectedUserIds|
        invariant currentConfigs == WithoutUsers(original, IdSet(selectedUserIds[..i]))
      {
        WithoutUsersStep(original, IdSet(selectedUserIds[..i]), selectedUserIds[i]);
        currentConfigs := WithoutUser(currentConfigs, selectedUserIds[i]);
        assert selectedUserIds[..i + 1][..i] == selectedUserIds[..i];
        i := i + 1;
      }
      assert selectedUserIds[..i] == selectedUserIds;
      warning := None;
    }
  }

  /** The set of ids in a list. */
  function IdSet(ids: seq<int>): (s: set<int>)
    ensures forall u :: u in s <==> u in ids
  {
    if ids == [] then {} else IdSet(ids[..|ids| - 1]) + {ids[|ids| - 1]}
  }

  /** Removing no user changes nothing. */
  lemma {:induction false} WithoutNobody(configs: seq<Config>)
    ensures WithoutUsers(configs, {}) == configs
  {
    if configs != [] {
      WithoutNobody(configs[1..]);
      assert [configs[0]] + configs[1..] == configs;
    }
  }
}
