/** `GroupInfo`: the member list of a group, with who may be removed, the admin badges,
    the member count and the leave button. The remove and leave actions are server
    actions that are not part of this model. */
module GroupInfo {
  import opened Wrappers
  import opened Schema
  import Text
  import Peers

  /** A member as the dialog receives it. */
  datatype Member = Member(user: UserId, role: Role, profile: Peers.ProfileView)

  /** One line of the list as rendered. */
  datatype Row = Row(user: UserId, caption: string, adminBadge: bool, subtitle: Option<string>, removable: bool)

  /** What the dialog shows. */
  datatype View = View(description: string, rows: seq<Row>, leaveOffered: bool)

  const YouSuffix := " (You)"

  /** `canRemove`: an admin viewer may remove anyone but themselves. */
  predicate CanRemove(m: Member, current: UserId, isAdmin: bool) {
    isAdmin && m.user != current
  }

  /** "N member" or "N members in this group". */
  function CountLabel(n: nat): (s: string)
    ensures |s| == |Text.NatToString(n)| + (if n == 1 then 21 else 22)
    ensures s[..|Text.NatToString(n)|] == Text.NatToString(n)
  {
    Text.NatToString(n) + " member" + (if n != 1 then "s" else "") + " in this group"
  }

  /** The singular form is used for one member and only then. */
  lemma CountLabelSingular(n: nat)
    ensures (CountLabel(n)[|Text.NatToString(n)| + 7] == ' ') <==> n == 1
  {
    var d := Text.NatToString(n);
    if n == 1 {
      assert CountLabel(n) == d + " member in this group";
    } else {
      assert CountLabel(n) == d + " members in this group";
    }
  }

  function RowOf(m: Member, current: UserId, isAdmin: bool): (r: Row)
    ensures r.user == m.user
    ensures r.removable <==> isAdmin && m.user != current
    ensures r.adminBadge <==> m.role == Admin
    ensures r.caption == m.profile.username + (if m.user == current then YouSuffix else [])
    ensures r.subtitle == Text.NonEmpty(m.profile.displayName)
  {
    Row(m.user,
        m.profile.username + (if m.user == current then YouSuffix else []),
        m.role == Admin,
        Text.NonEmpty(m.profile.displayName),
        CanRemove(m, current, isAdmin))
  }

  /** The dialog for `members` as seen by `current`. The leave button is offered whoever
      the viewer is and whatever the roles. */
  function Render(members: seq<Member>, current: UserId, isAdmin: bool): (v: View)
    ensures |v.rows| == |members|
    ensures forall i :: 0 <= i < |members| ==> v.rows[i] == RowOf(members[i], current, isAdmin)
    ensures v.description == CountLabel(|members|)
    ensures v.leaveOffered
  {
    View(CountLabel(|members|),
         seq(|members|, i requires 0 <= i < |members| => RowOf(members[i], current, isAdmin)),
         true)
  }

  /** A row has a remove button exactly when the viewer is admin and the row is not the
      viewer's, so the viewer's own row never has one, and a non-admin sees none. */
  lemma RemovableIff(members: seq<Member>, current: UserId, isAdmin: bool, i: nat)
    requires i < |members|
    ensures Render(members, current, isAdmin).rows[i].removable <==> isAdmin && members[i].user != current
    ensures members[i].user == current ==> !Render(members, current, isAdmin).rows[i].removable
    ensures !isAdmin ==> forall r :: r in Render(members, current, isAdmin).rows ==> !r.removable
  {
    var v := Render(members, current, isAdmin);
    assert forall r :: r in v.rows ==> exists k :: 0 <= k < |members| && r == RowOf(members[k], current, isAdmin);
  }

  /** The badge follows the member's own role, whoever is looking. */
  lemma BadgeIndependentOfViewer(members: seq<Member>, a: UserId, b: UserId, adminA: bool, adminB: bool, i: nat)
    requires i < |members|
    ensures Render(members, a, adminA).rows[i].adminBadge == Render(members, b, adminB).rows[i].adminBadge
    ensures Render(members, a, adminA).rows[i].adminBadge <==> members[i].role == Admin
  {
  }
}
