/** Grouping the leads of one tenant by shared phone or email: the union-find of the migration, with the
    recursive path-compressing find, and the connected components it computes. */
module LeadGroups {
  import opened Wrappers

  /** A lead as grouping sees it: its id and its normalised phone and email, "" for none. */
  datatype Contact = Contact(id: string, phone: string, email: string)

  // ---------- the relation ----------

  predicate Shares(a: Contact, b: Contact) {
    (a.phone != "" && a.phone == b.phone) || (a.email != "" && a.email == b.email)
  }

  predicate DistinctIds(leads: seq<Contact>) {
    forall i, j :: 0 <= i < j < |leads| ==> leads[i].id != leads[j].id
  }

  /** Neighbours on the path share a phone or an email. */
  predicate IsPath(leads: seq<Contact>, path: seq<nat>) {
    && (forall k :: 0 <= k < |path| ==> path[k] < |leads|)
    && (forall k :: 0 < k < |path| ==> Shares(leads[path[k - 1]], leads[path[k]]))
  }

  ghost predicate Joins(leads: seq<Contact>, path: seq<nat>, i: nat, j: nat) {
    IsPath(leads, path) && path != [] && path[0] == i && path[|path| - 1] == j
  }

  ghost predicate Connected(leads: seq<Contact>, i: nat, j: nat) {
    exists path :: Joins(leads, path, i, j)
  }

  lemma ConnectedRefl(leads: seq<Contact>, i: nat)
    requires i < |leads|
    ensures Connected(leads, i, i)
  {
    assert Joins(leads, [i], i, i);
  }

  lemma ConnectedShares(leads: seq<Contact>, i: nat, j: nat)
    requires i < |leads| && j < |leads| && Shares(leads[i], leads[j])
    ensures Connected(leads, i, j) && Connected(leads, j, i)
  {
    assert Joins(leads, [i, j], i, j);
    assert Joins(leads, [j, i], j, i);
  }

  lemma ConnectedTrans(leads: seq<Contact>, i: nat, j: nat, k: nat)
    requires Connected(leads, i, j) && Connected(leads, j, k)
    ensures Connected(leads, i, k)
  {
    var p :| Joins(leads, p, i, j);
    var q :| Joins(leads, q, j, k);
    var r := p + q[1..];
    assert forall x :: |p| <= x < |r| ==> r[x] == q[x - |p| + 1];
    assert Joins(leads, r, i, k);
  }

  /** A marking that agrees on leads that share agrees on connected leads. */
  lemma {:induction false} MarksAgree<T>(leads: seq<Contact>, mark: seq<T>, path: seq<nat>)
    requires |mark| == |leads|
    requires forall i, j :: 0 <= i < |leads| && 0 <= j < |leads| && Shares(leads[i], leads[j]) ==> mark[i] == mark[j]
    requires IsPath(leads, path) && path != []
    ensures mark[path[0]] == mark[path[|path| - 1]]
    decreases |path|
  {
    if |path| > 1 {
      MarksAgree(leads, mark, path[1..]);
      assert Shares(leads[path[0]], leads[path[1]]);
    }
  }

  // ---------- the forest ----------

  /** One id: its parent and its root are known and have its root, it is its own parent exactly when it is
      its root, and its height exceeds those of its parent and root. */
  ghost predicate IsNode(parent: map<string, string>, root: map<string, string>, height: map<string, nat>, x: string)
    requires root.Keys == parent.Keys == height.Keys && x in parent
  {
    && parent[x] in parent && root[x] in parent
    && root[parent[x]] == root[x] && root[root[x]] == root[x]
    && (if root[x] == x then parent[x] == x
        else parent[x] != x && height[parent[x]] < height[x] && height[root[x]] < height[x])
  }

  ghost predicate IsForest(parent: map<string, string>, root: map<string, string>, height: map<string, nat>) {
    && root.Keys == parent.Keys == height.Keys
    && forall x {:trigger IsNode(parent, root, height, x)} :: x in parent ==> IsNode(parent, root, height, x)
  }

  ghost function Joined(root: map<string, string>, ra: string, rb: string): map<string, string> {
    map x | x in root :: if root[x] == rb then ra else root[x]
  }

  ghost function Raised(root: map<string, string>, height: map<string, nat>, ra: string, rb: string): map<string, nat>
    requires root.Keys == height.Keys && ra in height
  {
    map x | x in height :: if root[x] == rb then height[x] + height[ra] + 1 else height[x]
  }

  lemma LinkKeepsForest(
    parent: map<string, string>, root: map<string, string>, height: map<string, nat>, ra: string, rb: string)
    requires IsForest(parent, root, height)
    requires ra in parent && rb in parent && root[ra] == ra && root[rb] == rb && ra != rb
    ensures IsForest(parent[rb := ra], Joined(root, ra, rb), Raised(root, height, ra, rb))
  {
    var parent', root', height' := parent[rb := ra], Joined(root, ra, rb), Raised(root, height, ra, rb);
    assert IsNode(parent, root, height, ra) && IsNode(parent, root, height, rb);
    forall x | x in parent' ensures IsNode(parent', root', height', x) {
      assert IsNode(parent, root, height, x);
      assert IsNode(parent, root, height, parent[x]);
    }
  }

  lemma CompressKeepsForest(parent: map<string, string>, root: map<string, string>, height: map<string, nat>, x: string)
    requires IsForest(parent, root, height) && x in parent && root[x] != x
    ensures root[x] in parent && IsForest(parent[x := root[x]], root, height)
  {
    assert IsNode(parent, root, height, x);
    forall y | y in parent ensures IsNode(parent[x := root[x]], root, height, y) {
      assert IsNode(parent, root, height, y);
    }
  }

  lemma AddKeepsForest(parent: map<string, string>, root: map<string, string>, height: map<string, nat>, id: string)
    requires IsForest(parent, root, height) && id !in parent
    ensures IsForest(parent[id := id], root[id := id], height[id := 0])
  {
    var parent', root', height' := parent[id := id], root[id := id], height[id := 0];
    forall x | x in parent' ensures IsNode(parent', root', height', x) {
      if x != id {
        assert IsNode(parent, root, height, x);
      }
    }
  }

  // ---------- what the loop keeps ----------

  function Phones(leads: seq<Contact>): seq<string> {
    seq(|leads|, i requires 0 <= i < |leads| => leads[i].phone)
  }

  function Emails(leads: seq<Contact>): seq<string> {
    seq(|leads|, i requires 0 <= i < |leads| => leads[i].email)
  }

  /** Leads with the same key share it. */
  ghost predicate KeysShare(leads: seq<Contact>, keys: seq<string>) {
    |keys| == |leads| &&
    forall i, j :: 0 <= i < |leads| && 0 <= j < |leads| && keys[i] != "" && keys[i] == keys[j] ==>
      Shares(leads[i], leads[j])
  }

  /** Among the first `k` leads, one root means connected. */
  ghost predicate Sound(leads: seq<Contact>, k: nat, root: map<string, string>)
    requires k <= |leads|
  {
    && (forall i :: 0 <= i < k ==> leads[i].id in root)
    && (forall i, j :: 0 <= i < k && 0 <= j < k && root[leads[i].id] == root[leads[j].id] ==> Connected(leads, i, j))
  }

  /** Owners are leads already seen, under their own key. */
  ghost predicate OwnersSeen(leads: seq<Contact>, k: nat, keys: seq<string>, owner: map<string, string>)
    requires k <= |leads| == |keys|
  {
    forall p :: p in owner ==> p != "" && exists i :: 0 <= i < k && leads[i].id == owner[p] && keys[i] == p
  }

  /** Every lead with a key is in the group of the key's owner. */
  ghost predicate Owned(
    leads: seq<Contact>, k: nat, keys: seq<string>, owner: map<string, string>, root: map<string, string>)
    requires k <= |leads| == |keys|
  {
    forall i :: 0 <= i < k && keys[i] != "" ==>
      keys[i] in owner && owner[keys[i]] in root && leads[i].id in root && root[owner[keys[i]]] == root[leads[i].id]
  }

  /** The owners after one claim. */
  function Claimed(owner: map<string, string>, key: string, id: string): map<string, string> {
    if key != "" && key !in owner then owner[key := id] else owner
  }

  /** The roots after one claim: unchanged, or the group of `b` joined to the group of `a`. */
  ghost predicate ClaimRoots(
    owner: map<string, string>, key: string, id: string, root: map<string, string>, root': map<string, string>)
  {
    if key != "" && key in owner then
      owner[key] in root && id in root && root' == Joined(root, root[owner[key]], root[id])
    else root' == root
  }

  lemma JoinSound(leads: seq<Contact>, k: nat, root: map<string, string>, a: nat, b: nat)
    requires k <= |leads| && Sound(leads, k, root) && a < k && b < k
    requires Connected(leads, a, b) && Connected(leads, b, a)
    ensures Sound(leads, k, Joined(root, root[leads[a].id], root[leads[b].id]))
  {
    var joined := Joined(root, root[leads[a].id], root[leads[b].id]);
    forall i, j | 0 <= i < k && 0 <= j < k && joined[leads[i].id] == joined[leads[j].id]
      ensures Connected(leads, i, j)
    {
      var ri, rj, ra, rb := root[leads[i].id], root[leads[j].id], root[leads[a].id], root[leads[b].id];
      if ri != rj {
        if ri == rb {
          ConnectedTrans(leads, i, b, a);
          ConnectedTrans(leads, i, a, j);
        } else {
          ConnectedTrans(leads, i, a, b);
          ConnectedTrans(leads, i, b, j);
        }
      }
    }
  }

  lemma ClaimSound(
    leads: seq<Contact>, k: nat, keys: seq<string>, owner: map<string, string>,
    root: map<string, string>, root': map<string, string>)
    requires k < |leads| && KeysShare(leads, keys) && OwnersSeen(leads, k, keys, owner)
    requires Sound(leads, k + 1, root) && ClaimRoots(owner, keys[k], leads[k].id, root, root')
    ensures Sound(leads, k + 1, root')
  {
    if keys[k] != "" && keys[k] in owner {
      var i :| 0 <= i < k && leads[i].id == owner[keys[k]] && keys[i] == keys[k];
      ConnectedShares(leads, i, k);
      JoinSound(leads, k + 1, root, i, k);
    }
  }

  lemma ClaimOwned(
    leads: seq<Contact>, k: nat, keys: seq<string>, owner: map<string, string>,
    root: map<string, string>, root': map<string, string>)
    requires k < |leads| == |keys| && leads[k].id in root
    requires OwnersSeen(leads, k, keys, owner) && Owned(leads, k, keys, owner, root)
    requires ClaimRoots(owner, keys[k], leads[k].id, root, root')
    ensures var owner' := Claimed(owner, keys[k], leads[k].id);
            OwnersSeen(leads, k + 1, keys, owner') && Owned(leads, k + 1, keys, owner', root')
  {
    var owner' := Claimed(owner, keys[k], leads[k].id);
    forall p | p in owner' ensures p != "" && exists i :: 0 <= i < k + 1 && leads[i].id == owner'[p] && keys[i] == p {
      if p in owner {
        var i :| 0 <= i < k && leads[i].id == owner[p] && keys[i] == p;
      } else {
        assert leads[k].id == owner'[p] && keys[k] == p;
      }
    }
  }

  /** One claim, for the keys it is about and for the other kind of key. */
  lemma ClaimKeeps(
    leads: seq<Contact>, k: nat, keys: seq<string>, owner: map<string, string>, owner': map<string, string>,
    root: map<string, string>, root': map<string, string>)
    requires k < |leads| == |keys| && KeysShare(leads, keys)
    requires Sound(leads, k + 1, root) && OwnersSeen(leads, k, keys, owner) && Owned(leads, k, keys, owner, root)
    requires ClaimRoots(owner, keys[k], leads[k].id, root, root')
    requires owner' == Claimed(owner, keys[k], leads[k].id)
    ensures Sound(leads, k + 1, root')
    ensures OwnersSeen(leads, k + 1, keys, owner') && Owned(leads, k + 1, keys, owner', root')
    ensures forall n: nat, others: seq<string>, theirs {:trigger Owned(leads, n, others, theirs, root)} ::
              n <= |leads| == |others| && Owned(leads, n, others, theirs, root) ==>
                Owned(leads, n, others, theirs, root')
  {
    hide Connected, Shares;
    ClaimSound(leads, k, keys, owner, root, root');
    ClaimOwned(leads, k, keys, owner, root, root');
  }

  function Ids(leads: seq<Contact>, n: nat): set<string>
    requires n <= |leads|
  {
    set i | 0 <= i < n :: leads[i].id
  }

  /** Roots are ids of the forest. */
  ghost predicate RootsIn(root: map<string, string>) {
    root.Values <= root.Keys
  }

  lemma RootsKnown(parent: map<string, string>, root: map<string, string>, height: map<string, nat>)
    requires IsForest(parent, root, height)
    ensures root.Keys == parent.Keys && RootsIn(root)
  {
    forall x | x in root ensures root[x] in root {
      assert IsNode(parent, root, height, x);
    }
  }

  lemma FreshId(leads: seq<Contact>, k: nat)
    requires k < |leads| && DistinctIds(leads)
    ensures leads[k].id !in Ids(leads, k) && Ids(leads, k + 1) == Ids(leads, k) + {leads[k].id}
  {
  }

  lemma KeysAre(leads: seq<Contact>)
    ensures KeysShare(leads, Phones(leads)) && KeysShare(leads, Emails(leads))
    ensures forall k :: 0 <= k < |leads| ==> Phones(leads)[k] == leads[k].phone && Emails(leads)[k] == leads[k].email
  {
  }

  /** What the loop knows when `n` leads are added, `p` of them have claimed their phone and `e` their email. */
  ghost predicate Grouped(
    leads: seq<Contact>, n: nat, p: nat, e: nat, root: map<string, string>,
    phoneOwner: map<string, string>, emailOwner: map<string, string>)
    requires n <= |leads| && p <= |leads| && e <= |leads|
  {
    && root.Keys == Ids(leads, n)
    && Sound(leads, n, root)
    && OwnersSeen(leads, p, Phones(leads), phoneOwner) && Owned(leads, p, Phones(leads), phoneOwner, root)
    && OwnersSeen(leads, e, Emails(leads), emailOwner) && Owned(leads, e, Emails(leads), emailOwner, root)
  }

  lemma AddKeeps(
    leads: seq<Contact>, k: nat, root: map<string, string>,
    phoneOwner: map<string, string>, emailOwner: map<string, string>, phones: seq<string>, emails: seq<string>)
    requires k < |leads| == |phones| == |emails| && Sound(leads, k, root) && leads[k].id !in root
    requires RootsIn(root)
    requires Owned(leads, k, phones, phoneOwner, root) && Owned(leads, k, emails, emailOwner, root)
    ensures var root' := root[leads[k].id := leads[k].id];
            Sound(leads, k + 1, root') &&
            Owned(leads, k, phones, phoneOwner, root') && Owned(leads, k, emails, emailOwner, root')
  {
    hide Connected, Shares;
    ConnectedRefl(leads, k);
  }

  lemma AddStep(
    leads: seq<Contact>, k: nat, root: map<string, string>, phoneOwner: map<string, string>,
    emailOwner: map<string, string>)
    requires k < |leads| && DistinctIds(leads) && Grouped(leads, k, k, k, root, phoneOwner, emailOwner)
    requires RootsIn(root)
    ensures leads[k].id !in root
    ensures Grouped(leads, k + 1, k, k, root[leads[k].id := leads[k].id], phoneOwner, emailOwner)
  {
    FreshId(leads, k);
    hide Sound, Owned, OwnersSeen, Phones, Emails, RootsIn;
    AddKeeps(leads, k, root, phoneOwner, emailOwner, Phones(leads), Emails(leads));
  }

  lemma PhoneStep(
    leads: seq<Contact>, k: nat, root: map<string, string>, root': map<string, string>,
    phoneOwner: map<string, string>, phoneOwner': map<string, string>, emailOwner: map<string, string>)
    requires k < |leads| && Grouped(leads, k + 1, k, k, root, phoneOwner, emailOwner)
    requires ClaimRoots(phoneOwner, leads[k].phone, leads[k].id, root, root') && root'.Keys == root.Keys
    requires phoneOwner' == Claimed(phoneOwner, leads[k].phone, leads[k].id)
    ensures Grouped(leads, k + 1, k + 1, k, root', phoneOwner', emailOwner)
  {
    KeysAre(leads);
    hide Sound, Owned, OwnersSeen, ClaimRoots, Phones, Emails, KeysShare, Ids;
    ClaimKeeps(leads, k, Phones(leads), phoneOwner, phoneOwner', root, root');
  }

  lemma EmailStep(
    leads: seq<Contact>, k: nat, root: map<string, string>, root': map<string, string>,
    phoneOwner: map<string, string>, emailOwner: map<string, string>, emailOwner': map<string, string>)
    requires k < |leads| && Grouped(leads, k + 1, k + 1, k, root, phoneOwner, emailOwner)
    requires ClaimRoots(emailOwner, leads[k].email, leads[k].id, root, root') && root'.Keys == root.Keys
    requires emailOwner' == Claimed(emailOwner, leads[k].email, leads[k].id)
    ensures Grouped(leads, k + 1, k + 1, k + 1, root', phoneOwner, emailOwner')
  {
    KeysAre(leads);
    hide Sound, Owned, OwnersSeen, ClaimRoots, Phones, Emails, KeysShare, Ids;
    ClaimKeeps(leads, k, Emails(leads), emailOwner, emailOwner', root, root');
  }

  lemma OwnersKnown(
    leads: seq<Contact>, k: nat, p: nat, e: nat, root: map<string, string>,
    phoneOwner: map<string, string>, emailOwner: map<string, string>)
    requires k < |leads| && p <= k + 1 && e <= k + 1 && Grouped(leads, k + 1, p, e, root, phoneOwner, emailOwner)
    ensures leads[k].id in root
    ensures leads[k].phone in phoneOwner ==> phoneOwner[leads[k].phone] in root
    ensures leads[k].email in emailOwner ==> emailOwner[leads[k].email] in root
  {
    hide Sound, Owned, Connected;
  }

  predicate HasRoots(leads: seq<Contact>, root: map<string, string>) {
    forall i :: 0 <= i < |leads| ==> leads[i].id in root
  }

  /** Two leads have one root exactly when they are connected. */
  ghost predicate RootsTell(leads: seq<Contact>, root: map<string, string>) {
    && HasRoots(leads, root)
    && (forall i, j :: 0 <= i < |leads| && 0 <= j < |leads| ==>
      (root[leads[i].id] == root[leads[j].id] <==> Connected(leads, i, j)))
  }

  lemma TellsRoots(leads: seq<Contact>, root: map<string, string>)
    requires RootsTell(leads, root)
    ensures HasRoots(leads, root)
  {
  }

  lemma HasRoot(leads: seq<Contact>, root: map<string, string>, k: nat)
    requires HasRoots(leads, root) && k < |leads|
    ensures leads[k].id in root
  {
  }

  /** At the end of the loop the roots tell the connected components. */
  lemma RootsAreComponents(
    leads: seq<Contact>, phoneOwner: map<string, string>, emailOwner: map<string, string>, root: map<string, string>)
    requires Sound(leads, |leads|, root)
    requires Owned(leads, |leads|, Phones(leads), phoneOwner, root)
    requires Owned(leads, |leads|, Emails(leads), emailOwner, root)
    ensures RootsTell(leads, root)
  {
    forall i, j | 0 <= i < |leads| && 0 <= j < |leads| && Shares(leads[i], leads[j])
      ensures root[leads[i].id] == root[leads[j].id]
    {
      assert Phones(leads)[i] == leads[i].phone && Phones(leads)[j] == leads[j].phone;
      assert Emails(leads)[i] == leads[i].email && Emails(leads)[j] == leads[j].email;
    }
    var mark := seq(|leads|, i requires 0 <= i < |leads| => root[leads[i].id]);
    forall i, j | 0 <= i < |leads| && 0 <= j < |leads| && Connected(leads, i, j)
      ensures root[leads[i].id] == root[leads[j].id]
    {
      var path :| Joins(leads, path, i, j);
      MarksAgree(leads, mark, path);
    }
  }

  // ---------- collecting the groups ----------

  /** The first `k` leads with a root, in order. */
  ghost function Members(leads: seq<Contact>, root: map<string, string>, r: string, k: nat): seq<nat>
    requires k <= |leads| && forall i :: 0 <= i < k ==> leads[i].id in root
  {
    if k == 0 then []
    else Members(leads, root, r, k - 1) + if root[leads[k - 1].id] == r then [k - 1] else []
  }

  ghost predicate InOrder(group: seq<nat>) {
    forall x, y :: 0 <= x < y < |group| ==> group[x] < group[y]
  }

  lemma AppendInOrder(group: seq<nat>, k: nat)
    requires InOrder(group) && forall i :: i in group ==> i < k
    ensures InOrder(group + [k])
  {
    assert forall x :: 0 <= x < |group| ==> group[x] in group;
  }

  /** The last of a rising list is its greatest, and the others are the list without it. */
  lemma RisingLast(a: seq<nat>)
    requires InOrder(a) && a != []
    ensures var c, p := a[..|a| - 1], a[|a| - 1];
            && a == c + [p] && InOrder(c) && p in a
            && forall i: nat :: (i in a ==> i <= p) && (i in c <==> i in a && i != p)
  {
    var c, p := a[..|a| - 1], a[|a| - 1];
    assert a == c + [p];
  }

  /** Two rising lists of the same numbers are the same list. */
  lemma {:induction false} RisingSame(a: seq<nat>, b: seq<nat>)
    requires InOrder(a) && InOrder(b) && forall i: nat :: i in a <==> i in b
    ensures a == b
    decreases |a|
  {
    assert (a != [] ==> a[0] in a) && (b != [] ==> b[0] in b);
    if a != [] && b != [] {
      RisingLast(a);
      RisingLast(b);
      hide InOrder;
      RisingSame(a[..|a| - 1], b[..|b| - 1]);
    }
  }

  lemma {:induction false} MembersAre(leads: seq<Contact>, root: map<string, string>, r: string, k: nat)
    requires k <= |leads| && forall i :: 0 <= i < k ==> leads[i].id in root
    ensures InOrder(Members(leads, root, r, k))
    ensures forall i :: i in Members(leads, root, r, k) <==> 0 <= i < k && root[leads[i].id] == r
  {
    if k > 0 {
      MembersAre(leads, root, r, k - 1);
      AppendInOrder(Members(leads, root, r, k - 1), k - 1);
      hide InOrder;
    }
  }

  predicate InSome(groups: seq<seq<nat>>, i: nat) {
    exists g :: 0 <= g < |groups| && i in groups[g]
  }

  /** The groups: nonempty lists of leads in order, every lead in one, and two leads in the same one exactly
      when they are connected. */
  ghost predicate Components(leads: seq<Contact>, groups: seq<seq<nat>>) {
    && (forall g :: 0 <= g < |groups| ==>
      groups[g] != [] && InOrder(groups[g]) && forall i :: i in groups[g] ==> i < |leads|)
    && (forall i :: 0 <= i < |leads| ==> InSome(groups, i))
    && (forall g, h, i, j :: 0 <= g < |groups| && 0 <= h < |groups| && i in groups[g] && j in groups[h] ==>
         (g == h <==> Connected(leads, i, j)))
  }

  ghost predicate Names(order: seq<string>, roots: set<string>) {
    NoRepeats(order) && forall r :: r in order <==> r in roots
  }

  ghost predicate AllFiled(leads: seq<Contact>, root: map<string, string>, k: nat, groups: map<string, seq<nat>>)
    requires k <= |leads| && HasRoots(leads, root)
  {
    && (forall r :: r in groups ==> groups[r] == Members(leads, root, r, k) && groups[r] != [])
    && (forall i :: 0 <= i < k ==> root[leads[i].id] in groups)
  }

  /** What the collecting loop knows after `k` leads: each root met has its members, in the order met. */
  ghost predicate Collected(
    leads: seq<Contact>, root: map<string, string>, k: nat, order: seq<string>, groups: map<string, seq<nat>>)
    requires k <= |leads| && HasRoots(leads, root)
  {
    Names(order, groups.Keys) && AllFiled(leads, root, k, groups)
  }

  lemma {:induction false} NoMembers(leads: seq<Contact>, root: map<string, string>, r: string, k: nat)
    requires k <= |leads| && forall i :: 0 <= i < k ==> leads[i].id in root && root[leads[i].id] != r
    ensures Members(leads, root, r, k) == []
  {
    if k > 0 {
      NoMembers(leads, root, r, k - 1);
    }
  }

  /** A lead goes to the end of the group of its root; the first one starts the group. */
  function FileUnder(groups: map<string, seq<nat>>, r: string, k: nat): map<string, seq<nat>> {
    if r in groups then groups[r := groups[r] + [k]] else groups[r := [k]]
  }

  lemma NothingCollected(leads: seq<Contact>, root: map<string, string>)
    requires RootsTell(leads, root)
    ensures Collected(leads, root, 0, [], map[])
  {
  }

  lemma MembersStep(leads: seq<Contact>, root: map<string, string>, k: nat, x: string)
    requires k < |leads| && HasRoots(leads, root)
    ensures root[leads[k].id] != x ==> Members(leads, root, x, k + 1) == Members(leads, root, x, k)
    ensures root[leads[k].id] == x ==> Members(leads, root, x, k + 1) == Members(leads, root, x, k) + [k]
  {
    assert Members(leads, root, x, k) + [] == Members(leads, root, x, k);
  }

  lemma FiledStep(leads: seq<Contact>, root: map<string, string>, k: nat, groups: map<string, seq<nat>>, x: string)
    requires k < |leads| && HasRoots(leads, root)
    requires AllFiled(leads, root, k, groups) && x in FileUnder(groups, root[leads[k].id], k)
    ensures FileUnder(groups, root[leads[k].id], k)[x] == Members(leads, root, x, k + 1) != []
  {
    MembersStep(leads, root, k, x);
    if x !in groups {
      NoMembers(leads, root, x, k);
      assert [] + [k] == [k];
    }
    hide Members;
  }

  lemma AllFiledStep(leads: seq<Contact>, root: map<string, string>, k: nat, groups: map<string, seq<nat>>)
    requires k < |leads| && HasRoots(leads, root)
    requires AllFiled(leads, root, k, groups)
    ensures AllFiled(leads, root, k + 1, FileUnder(groups, root[leads[k].id], k))
  {
    hide Members;
    forall x | x in FileUnder(groups, root[leads[k].id], k)
      ensures FileUnder(groups, root[leads[k].id], k)[x] == Members(leads, root, x, k + 1) != []
    {
      FiledStep(leads, root, k, groups, x);
    }
  }

  lemma NamesStep(order: seq<string>, groups: map<string, seq<nat>>, r: string, k: nat)
    requires Names(order, groups.Keys)
    ensures Names(if r in groups then order else order + [r], FileUnder(groups, r, k).Keys)
  {
  }

  lemma CollectStep(
    leads: seq<Contact>, root: map<string, string>, k: nat, order: seq<string>, groups: map<string, seq<nat>>)
    requires k < |leads| && RootsTell(leads, root) && Collected(leads, root, k, order, groups)
    ensures var r := root[leads[k].id];
            Collected(leads, root, k + 1, if r in groups then order else order + [r], FileUnder(groups, r, k))
  {
    hide Names, AllFiled, Members, Connected, FileUnder;
    AllFiledStep(leads, root, k, groups);
    NamesStep(order, groups, root[leads[k].id], k);
  }

  /** The groups in the order their roots were first met. */
  function Filed(order: seq<string>, groups: map<string, seq<nat>>): seq<seq<nat>> {
    seq(|order|, g requires 0 <= g < |order| => if order[g] in groups then groups[order[g]] else [])
  }

  ghost predicate HoldsRoot(leads: seq<Contact>, root: map<string, string>, r: string, group: seq<nat>)
    requires HasRoots(leads, root)
  {
    && group != [] && InOrder(group)
    && (forall i :: i in group ==> i < |leads| && root[leads[i].id] == r)
    && (forall i: nat :: i < |leads| && root[leads[i].id] == r ==> i in group)
  }

  /** Each list holds the leads of one root, in order. */
  ghost predicate HoldsRoots(
    leads: seq<Contact>, root: map<string, string>, order: seq<string>, result: seq<seq<nat>>)
    requires HasRoots(leads, root)
  {
    && |result| == |order| && NoRepeats(order)
    && forall g :: 0 <= g < |result| ==> HoldsRoot(leads, root, order[g], result[g])
  }

  lemma FiledAt(
    leads: seq<Contact>, root: map<string, string>, order: seq<string>, groups: map<string, seq<nat>>, g: nat)
    requires HasRoots(leads, root) && Collected(leads, root, |leads|, order, groups) && g < |order|
    ensures g < |Filed(order, groups)| && Filed(order, groups)[g] != []
    ensures Filed(order, groups)[g] == Members(leads, root, order[g], |leads|)
  {
    hide Members;
    assert order[g] in order;
  }

  lemma FiledHolds(
    leads: seq<Contact>, root: map<string, string>, order: seq<string>, groups: map<string, seq<nat>>)
    requires HasRoots(leads, root) && Collected(leads, root, |leads|, order, groups)
    ensures HoldsRoots(leads, root, order, Filed(order, groups))
  {
    var result := Filed(order, groups);
    assert |result| == |order|;
    hide Filed, Members, InOrder, AllFiled;
    forall g | 0 <= g < |result|
      ensures HoldsRoot(leads, root, order[g], result[g])
    {
      FiledAt(leads, root, order, groups, g);
      MembersAre(leads, root, order[g], |leads|);
    }
  }

  lemma FiledSome(
    leads: seq<Contact>, root: map<string, string>, order: seq<string>, groups: map<string, seq<nat>>)
    requires HasRoots(leads, root) && Collected(leads, root, |leads|, order, groups)
    requires HoldsRoots(leads, root, order, Filed(order, groups))
    ensures forall i :: 0 <= i < |leads| ==> InSome(Filed(order, groups), i)
  {
    var result := Filed(order, groups);
    hide Filed, Members, InOrder;
    forall i | 0 <= i < |leads| ensures InSome(result, i) {
      var r := root[leads[i].id];
      assert r in order;
      var g :| 0 <= g < |order| && order[g] == r;
      assert HoldsRoot(leads, root, order[g], result[g]);
    }
  }

  lemma FiledApart(leads: seq<Contact>, root: map<string, string>, order: seq<string>, result: seq<seq<nat>>)
    requires RootsTell(leads, root) && HoldsRoots(leads, root, order, result)
    requires forall i :: 0 <= i < |leads| ==> InSome(result, i)
    ensures Components(leads, result)
  {
    hide InOrder, Connected, InSome;
    forall g, h, i: nat, j: nat | 0 <= g < |result| && 0 <= h < |result| && i in result[g] && j in result[h]
      ensures g == h <==> Connected(leads, i, j)
    {
      assert HoldsRoot(leads, root, order[g], result[g]) && HoldsRoot(leads, root, order[h], result[h]);
    }
  }

  lemma CollectedComponents(
    leads: seq<Contact>, root: map<string, string>, order: seq<string>, groups: map<string, seq<nat>>)
    requires RootsTell(leads, root) && Collected(leads, root, |leads|, order, groups)
    ensures Components(leads, Filed(order, groups))
  {
    TellsRoots(leads, root);
    hide *;
    FiledHolds(leads, root, order, groups);
    FiledSome(leads, root, order, groups);
    FiledApart(leads, root, order, Filed(order, groups));
  }

  class Grouping {
    var parent: map<string, string>
    var phoneOwner: map<string, string>
    var emailOwner: map<string, string>
    ghost var root: map<string, string>
    ghost var height: map<string, nat>

    ghost predicate Valid()
      reads this
    {
      IsForest(parent, root, height)
    }

    constructor ()
      ensures Valid() && parent == map[] && phoneOwner == map[] && emailOwner == map[]
    {
      parent, phoneOwner, emailOwner, root, height := map[], map[], map[], map[], map[];
    }

    /** The recursion ends, the answer is the root, and compressing the path moves no root. */
    method Find(id: string) returns (r: string)
      requires Valid() && id in parent
      modifies this`parent
      ensures Valid() && parent.Keys == old(parent.Keys) && r == root[id]
      decreases height[id]
    {
      assert IsNode(parent, root, height, id);
      var p := parent[id];
      if p == id {
        return id;
      }
      r := Find(p);
      CompressKeepsForest(parent, root, height, id);
      parent := parent[id := r];
    }

    method Union(a: string, b: string)
      requires Valid() && a in parent && b in parent
      modifies this`parent, this`root, this`height
      ensures Valid() && parent.Keys == old(parent.Keys)
      ensures root == Joined(old(root), old(root)[a], old(root)[b])
    {
      assert IsNode(parent, root, height, a) && IsNode(parent, root, height, b);
      var ra := Find(a);
      var rb := Find(b);
      if ra != rb {
        LinkKeepsForest(parent, root, height, ra, rb);
        parent := parent[rb := ra];
        height := Raised(root, height, ra, rb);
        root := Joined(root, ra, rb);
      } else {
        assert Joined(root, ra, rb) == root;
      }
    }

    /** `parent.set(id, id)` for an id not seen before. */
    method Add(id: string)
      requires Valid() && id !in parent
      modifies this`parent, this`root, this`height
      ensures Valid() && parent.Keys == old(parent.Keys) + {id} && root == old(root)[id := id]
    {
      AddKeepsForest(parent, root, height, id);
      parent := parent[id := id];
      root := root[id := id];
      height := height[id := 0];
    }

    /** One line of the loop: the first lead with a key owns it, a later one joins the owner's group. */
    method Claim(owner: map<string, string>, key: string, id: string) returns (owner': map<string, string>)
      requires Valid() && id in parent && (key in owner ==> owner[key] in parent)
      modifies this`parent, this`root, this`height
      ensures Valid() && parent.Keys == old(parent.Keys)
      ensures owner' == Claimed(owner, key, id)
      ensures ClaimRoots(owner, key, id, old(root), root)
    {
      SameKeys(parent, root, height);
      hide IsForest;
      owner' := owner;
      if key != "" {
        if key in owner {
          Union(owner[key], id);
        } else {
          owner' := owner[key := id];
        }
      }
    }

    /** The loop over a tenant's leads.  Two leads get one root exactly when they are connected. */
    method Build(leads: seq<Contact>)
      requires Valid() && parent == map[] && phoneOwner == map[] && emailOwner == map[] && DistinctIds(leads)
      modifies this
      ensures Valid() && RootsTell(leads, root)
    {
      RootsKnown(parent, root, height);
      NothingGrouped(leads, root);
      hide IsForest, IsNode, RootsIn, Connected, Grouped;
      var k := 0;
      while k < |leads|
        invariant 0 <= k <= |leads| && Valid() && Grouped(leads, k, k, k, root, phoneOwner, emailOwner)
      {
        AddLead(leads, k);
        ClaimPhone(leads, k);
        ClaimEmail(leads, k);
        k := k + 1;
      }
      SameKeys(parent, root, height);
      AllGrouped(leads, root, phoneOwner, emailOwner);
    }

    /** The first line of the loop. */
    method AddLead(leads: seq<Contact>, k: nat)
      requires k < |leads| && DistinctIds(leads) && Valid() && Grouped(leads, k, k, k, root, phoneOwner, emailOwner)
      modifies this`parent, this`root, this`height
      ensures Valid() && Grouped(leads, k + 1, k, k, root, phoneOwner, emailOwner)
    {
      RootsKnown(parent, root, height);
      hide IsForest, IsNode, RootsIn, DistinctIds, Grouped;
      AddStep(leads, k, root, phoneOwner, emailOwner);
      Add(leads[k].id);
    }

    /** The phone line of the loop. */
    method ClaimPhone(leads: seq<Contact>, k: nat)
      requires k < |leads| && Valid() && Grouped(leads, k + 1, k, k, root, phoneOwner, emailOwner)
      modifies this`parent, this`root, this`height, this`phoneOwner
      ensures Valid() && Grouped(leads, k + 1, k + 1, k, root, phoneOwner, emailOwner)
    {
      SameKeys(parent, root, height);
      hide IsForest, Grouped, ClaimRoots, Claimed;
      OwnersKnown(leads, k, k, k, root, phoneOwner, emailOwner);
      var owner := Claim(phoneOwner, leads[k].phone, leads[k].id);
      SameKeys(parent, root, height);
      PhoneStep(leads, k, old(root), root, phoneOwner, owner, emailOwner);
      phoneOwner := owner;
    }

    /** The email line of the loop. */
    method ClaimEmail(leads: seq<Contact>, k: nat)
      requires k < |leads| && Valid() && Grouped(leads, k + 1, k + 1, k, root, phoneOwner, emailOwner)
      modifies this`parent, this`root, this`height, this`emailOwner
      ensures Valid() && Grouped(leads, k + 1, k + 1, k + 1, root, phoneOwner, emailOwner)
    {
      SameKeys(parent, root, height);
      hide IsForest, Grouped, ClaimRoots, Claimed;
      OwnersKnown(leads, k, k + 1, k, root, phoneOwner, emailOwner);
      var owner := Claim(emailOwner, leads[k].email, leads[k].id);
      SameKeys(parent, root, height);
      EmailStep(leads, k, old(root), root, phoneOwner, emailOwner, owner);
      emailOwner := owner;
    }

    lemma ValidKeys()
      requires Valid()
      ensures root.Keys == parent.Keys
    {
      SameKeys(parent, root, height);
    }

    /** One turn of the loop; `find` keeps compressing paths and moves no root. */
    method FileLead(leads: seq<Contact>, k: nat, order: seq<string>, byRoot: map<string, seq<nat>>)
      returns (order': seq<string>, byRoot': map<string, seq<nat>>)
      requires k < |leads| && Valid() && RootsTell(leads, root) && Collected(leads, root, k, order, byRoot)
      modifies this`parent
      ensures Valid() && Collected(leads, root, k + 1, order', byRoot')
    {
      hide *;
      ValidKeys();
      TellsRoots(leads, root);
      HasRoot(leads, root, k);
      CollectStep(leads, root, k, order, byRoot);
      var r := Find(leads[k].id);
      order', byRoot' := if r in byRoot then order else order + [r], FileUnder(byRoot, r, k);
    }

    /** The loop that files every lead under its root. */
    method Collect(leads: seq<Contact>) returns (groups: seq<seq<nat>>)
      requires Valid() && RootsTell(leads, root)
      modifies this`parent
      ensures Valid() && Components(leads, groups)
    {
      hide *;
      TellsRoots(leads, root);
      NothingCollected(leads, root);
      var order: seq<string> := [];
      var byRoot: map<string, seq<nat>> := map[];
      var k: nat := 0;
      while k < |leads|
        invariant k <= |leads| && Valid() && Collected(leads, root, k, order, byRoot)
      {
        order, byRoot := FileLead(leads, k, order, byRoot);
        k := k + 1;
      }
      CollectedComponents(leads, root, order, byRoot);
      groups := Filed(order, byRoot);
    }
  }

  /** The groups of a tenant's leads are the connected components of sharing a phone or an email. */
  method GroupLeads(leads: seq<Contact>) returns (groups: seq<seq<nat>>)
    requires DistinctIds(leads)
    ensures Components(leads, groups)
  {
    hide Connected, Components, IsForest;
    var grouping := new Grouping();
    grouping.Build(leads);
    groups := grouping.Collect(leads);
  }

  lemma SameKeys(parent: map<string, string>, root: map<string, string>, height: map<string, nat>)
    requires IsForest(parent, root, height)
    ensures root.Keys == parent.Keys
  {
    hide IsNode;
  }

  lemma NothingGrouped(leads: seq<Contact>, root: map<string, string>)
    requires root == map[]
    ensures Grouped(leads, 0, 0, 0, root, map[], map[])
  {
  }

  lemma AllGrouped(
    leads: seq<Contact>, root: map<string, string>, phoneOwner: map<string, string>, emailOwner: map<string, string>)
    requires Grouped(leads, |leads|, |leads|, |leads|, root, phoneOwner, emailOwner)
    ensures RootsTell(leads, root)
  {
    RootsAreComponents(leads, phoneOwner, emailOwner, root);
  }

  // ---------- every list of leads has groups ----------

  /** The roots after one claim; it stays among the ids it knows. */
  lemma ClaimAny(owner: map<string, string>, key: string, id: string, root: map<string, string>)
    returns (root': map<string, string>)
    requires RootsIn(root) && id in root && (key in owner ==> owner[key] in root)
    ensures ClaimRoots(owner, key, id, root, root') && root'.Keys == root.Keys && RootsIn(root')
  {
    root' := if key != "" && key in owner then Joined(root, root[owner[key]], root[id]) else root;
  }

  lemma NoRoots()
    ensures RootsIn(map[])
  {
  }

  lemma AddAny(root: map<string, string>, id: string)
    requires RootsIn(root)
    ensures RootsIn(root[id := id])
  {
  }

  lemma SomeClaims(
    leads: seq<Contact>, k: nat, before: map<string, string>, phones: map<string, string>, emails: map<string, string>)
    returns (root: map<string, string>, phoneOwner: map<string, string>, emailOwner: map<string, string>)
    requires k < |leads| && DistinctIds(leads) && Grouped(leads, k, k, k, before, phones, emails) && RootsIn(before)
    ensures Grouped(leads, k + 1, k + 1, k + 1, root, phoneOwner, emailOwner) && RootsIn(root)
  {
    hide *;
    var id, phone, email := leads[k].id, leads[k].phone, leads[k].email;
    AddStep(leads, k, before, phones, emails);
    AddAny(before, id);
    var added := before[id := id];
    OwnersKnown(leads, k, k, k, added, phones, emails);
    var joined := ClaimAny(phones, phone, id, added);
    phoneOwner := Claimed(phones, phone, id);
    PhoneStep(leads, k, added, joined, phones, phoneOwner, emails);
    OwnersKnown(leads, k, k + 1, k, joined, phoneOwner, emails);
    root := ClaimAny(emails, email, id, joined);
    emailOwner := Claimed(emails, email, id);
    EmailStep(leads, k, joined, root, phoneOwner, emails, emailOwner);
  }

  lemma {:induction false} SomeRoots(leads: seq<Contact>, k: nat)
    returns (root: map<string, string>, phoneOwner: map<string, string>, emailOwner: map<string, string>)
    requires k <= |leads| && DistinctIds(leads)
    ensures Grouped(leads, k, k, k, root, phoneOwner, emailOwner) && RootsIn(root)
  {
    hide *;
    if k == 0 {
      root, phoneOwner, emailOwner := map[], map[], map[];
      NothingGrouped(leads, root);
      NoRoots();
    } else {
      var before, phones, emails := SomeRoots(leads, k - 1);
      root, phoneOwner, emailOwner := SomeClaims(leads, k - 1, before, phones, emails);
    }
  }

  lemma {:induction false} SomeCollected(leads: seq<Contact>, root: map<string, string>, k: nat)
    returns (order: seq<string>, groups: map<string, seq<nat>>)
    requires k <= |leads| && RootsTell(leads, root)
    ensures Collected(leads, root, k, order, groups)
  {
    hide *;
    TellsRoots(leads, root);
    if k == 0 {
      NothingCollected(leads, root);
      order, groups := [], map[];
    } else {
      var before, some := SomeCollected(leads, root, k - 1);
      HasRoot(leads, root, k - 1);
      CollectStep(leads, root, k - 1, before, some);
      var r := root[leads[k - 1].id];
      order, groups := if r in some then before else before + [r], FileUnder(some, r, k - 1);
    }
  }

  /** Leads with distinct ids have components. */
  lemma SomeComponents(leads: seq<Contact>) returns (groups: seq<seq<nat>>)
    requires DistinctIds(leads)
    ensures Components(leads, groups)
  {
    hide *;
    var root, phoneOwner, emailOwner := SomeRoots(leads, |leads|);
    AllGrouped(leads, root, phoneOwner, emailOwner);
    var order, byRoot := SomeCollected(leads, root, |leads|);
    CollectedComponents(leads, root, order, byRoot);
    groups := Filed(order, byRoot);
  }
}
