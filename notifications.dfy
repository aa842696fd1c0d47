/** The Notification record of the registry and the store invariant that
    ties each stored record to the key it is filed under. */
module Notifications {
  import opened Wrappers

  /** A registered notification. `name` and `description` are optional in a
      create request, so a record may hold `None` for them (JSON null).
      `id` is the empty string until the store assigns one. */
  datatype Notification = Notification(
    payload: string,
    name: Option<string>,
    description: Option<string>,
    id: string)

  /** A fresh record as a create request builds it, before it has an id. */
  function NewNotification(payload: string, name: Option<string>, description: Option<string>): (n: Notification)
    ensures n.id == "" && n.payload == payload && n.name == name && n.description == description
  {
    Notification(payload, name, description, "")
  }

  /** The content delivered to a recipient: the payload, unformatted. */
  function RenderEmail(n: Notification): (content: string)
    ensures content == n.payload
  {
    n.payload
  }

  /** What is delivered depends on the payload alone: name, description
      and id never change it. */
  lemma RenderIgnoresLabels(n: Notification, name: Option<string>, description: Option<string>, id: string)
    ensures RenderEmail(Notification(n.payload, name, description, id)) == RenderEmail(n)
  {
  }

  /** The store invariant: every record is filed under its own id. */
  ghost predicate IdsMatchKeys(m: map<string, Notification>)
  {
    forall k :: k in m ==> m[k].id == k
  }

  /** Under the invariant no two keys hold the same record, so the store
      has exactly as many distinct records as keys. */
  lemma {:induction false} ValuesCountKeys(m: map<string, Notification>)
    requires IdsMatchKeys(m)
    ensures |m.Values| == |m.Keys|
  {
    if m != map[] {
      var k :| k in m;
      var rest := m - {k};
      ValuesCountKeys(rest);
      assert m.Keys == rest.Keys + {k};
      assert m.Values == rest.Values + {m[k]};
      assert m[k] !in rest.Values;
    }
  }
}
