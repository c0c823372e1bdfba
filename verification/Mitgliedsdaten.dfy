/** Members, and what the merge of 0231 promises of them, said on their columns alone. */
module Mitgliedsdaten {
  import opened Grundlagen

  datatype Member = Member(id: nat, orgId: Option<nat>, sybosId: Option<string>, lastname: Option<string>,
                           firstname: Option<string>,
                           active: bool, phone: Option<string>, email: Option<string>)

  /** Names are compared stripped and case-folded. */
  predicate GleicherName(m: Member, n: Member, falte: Option<string> -> string) {
    falte(m.lastname) == falte(n.lastname) && falte(m.firstname) == falte(n.firstname)
  }

  /** `l` is the only member of its name from before the import, `w` the only imported one. */
  ghost predicate IstMergePaar(t: map<nat, Member>, falte: Option<string> -> string, l: int, w: int) {
    && l in t && t[l].orgId.None? && t[l].sybosId.None?
    && w in t && t[w].orgId.Some? && t[w].sybosId.Some? && GleicherName(t[l], t[w], falte)
    && (forall x :: x in t && GleicherName(t[l], t[x], falte) && t[x].orgId.None? && t[x].sybosId.None? ==> x == l)
    && (forall x :: x in t && GleicherName(t[l], t[x], falte) && t[x].orgId.Some? && t[x].sybosId.Some? ==> x == w)
  }

  predicate Leer(feld: Option<string>) {
    feld.None? || feld.value == ""
  }

  /** A contact field of member `x`: kept when filled, else taken from the merged member when that one has it. */
  ghost predicate FeldNachMerge(t: map<nat, Member>, falte: Option<string> -> string, x: nat,
                                feld: Member -> Option<string>, neu: Option<string>)
    requires x in t
  {
    && (!Leer(feld(t[x])) ==> neu == feld(t[x]))
    && (Leer(feld(t[x])) ==> forall l :: IstMergePaar(t, falte, l, x) ==>
          neu == if Leer(feld(t[l])) then feld(t[x]) else feld(t[l]))
    && ((forall l :: !IstMergePaar(t, falte, l, x)) ==> neu == feld(t[x]))
  }

  /** `u` is the member table `t` without the merged members; nothing but missing phones and mails has changed. */
  ghost predicate MitgliederNachMerge(t: map<nat, Member>, falte: Option<string> -> string, u: map<nat, Member>) {
    && (forall x :: x in u <==> x in t && forall w :: !IstMergePaar(t, falte, x, w))
    && (forall x {:trigger u[x]} :: x in u ==>
          && u[x] == t[x].(phone := u[x].phone, email := u[x].email)
          && FeldNachMerge(t, falte, x, (m: Member) => m.phone, u[x].phone)
          && FeldNachMerge(t, falte, x, (m: Member) => m.email, u[x].email))
  }
}
