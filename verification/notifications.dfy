/** The client's toast notifications: a single slot that every new notification empties before
    it is appended, and the icon and colour looked up from the notification's kind.
    A notification is removed by its close button or by its own five-second timer; both remove
    that one element only, which the model expresses as Dismiss by identity. */
module Notifications {

  /** One displayed notification. The identity stands for the DOM element. */
  datatype Note = Note(id: nat, message: string, kind: string)

  /** The notifications in the document, and the identity the next one will get. */
  datatype Tray = Tray(notes: seq<Note>, nextId: nat)

  /** The four kinds with their own icon and colour. */
  const KnownKinds: set<string> := {"success", "error", "warning", "info"}

  /** Every identity in the tray was handed out before, and no two notes share one. */
  ghost predicate WellFormed(t: Tray) {
    && (forall k :: 0 <= k < |t.notes| ==> t.notes[k].id < t.nextId)
    && (forall k, m :: 0 <= k < m < |t.notes| ==> t.notes[k].id != t.notes[m].id)
  }

  function EmptyTray(): (t: Tray)
    ensures WellFormed(t) && t.notes == []
  {
    Tray([], 0)
  }

  /** showNotification: every existing notification is removed, then the new one is appended.
      The new element is distinct from every element created before it. */
  function Show(t: Tray, message: string, kind: string): (t': Tray)
    ensures |t'.notes| == 1
    ensures t'.notes[0].message == message && t'.notes[0].kind == kind
    ensures t'.notes[0].id == t.nextId && t'.nextId == t.nextId + 1
    ensures WellFormed(t) ==> forall k :: 0 <= k < |t.notes| ==> t'.notes[0].id != t.notes[k].id
    ensures WellFormed(t) ==> WellFormed(t')
  {
    Tray([Note(t.nextId, message, kind)], t.nextId + 1)
  }

  /** The notes other than those with identity id, in their original order. */
  function Without(notes: seq<Note>, id: nat): (r: seq<Note>)
    ensures |r| <= |notes|
    ensures forall n :: n in r <==> n in notes && n.id != id
  {
    if notes == [] then []
    else if notes[0].id == id then Without(notes[1..], id)
    else [notes[0]] + Without(notes[1..], id)
  }

  /** A notification's close button or its timer: removes that element if it is still there. */
  function Dismiss(t: Tray, id: nat): (t': Tray)
    ensures forall n :: n in t'.notes <==> n in t.notes && n.id != id
    ensures t'.nextId == t.nextId
  {
    Tray(Without(t.notes, id), t.nextId)
  }

  /** Removing notes keeps identities unique. */
  lemma {:induction false} WithoutKeepsUnique(notes: seq<Note>, id: nat)
    requires forall k, m :: 0 <= k < m < |notes| ==> notes[k].id != notes[m].id
    ensures forall k, m :: 0 <= k < m < |Without(notes, id)| ==>
      Without(notes, id)[k].id != Without(notes, id)[m].id
  {
    if notes != [] {
      WithoutKeepsUnique(notes[1..], id);
      var rest := Without(notes[1..], id);
      if notes[0].id != id {
        forall m | 0 <= m < |rest|
          ensures rest[m].id != notes[0].id
        {
          assert rest[m] in notes[1..];
          var j :| 0 <= j < |notes[1..]| && notes[1..][j] == rest[m];
          assert notes[j + 1] == rest[m];
        }
      }
    }
  }

  /** Dismissing keeps a well-formed tray well-formed. */
  lemma DismissPreservesWellFormed(t: Tray, id: nat)
    requires WellFormed(t)
    ensures WellFormed(Dismiss(t, id))
  {
    WithoutKeepsUnique(t.notes, id);
    var r := Without(t.notes, id);
    forall k | 0 <= k < |r|
      ensures r[k].id < t.nextId
    {
      assert r[k] in r;
    }
  }

  /** Two notifications in succession leave exactly one, bearing the second message; a timer
      or close button of the first, firing afterwards, leaves that one in place. */
  lemma ShowTwiceKeepsSecond(t: Tray, first: string, kind1: string, second: string, kind2: string)
    ensures var t1 := Show(t, first, kind1);
            var t2 := Show(t1, second, kind2);
            && |t2.notes| == 1
            && t2.notes[0].message == second
            && Dismiss(t2, t1.notes[0].id).notes == t2.notes
  {
  }

  /** The timer or close button of any earlier notification, firing after a new one is shown,
      leaves the new one in place. */
  lemma StaleDismissKeepsNewest(t: Tray, message: string, kind: string, id: nat)
    requires id < t.nextId
    ensures Dismiss(Show(t, message, kind), id) == Show(t, message, kind)
  {
    var t' := Show(t, message, kind);
    assert t'.notes[0] in t'.notes;
    assert Dismiss(t', id).notes == t'.notes by {
      assert Without(t'.notes, id) == [t'.notes[0]] + Without([], id);
    }
  }

  /** Showing each of a non-empty series of messages, one after the other. */
  function ShowAll(t: Tray, messages: seq<string>, kind: string): Tray
    decreases |messages|
  {
    if messages == [] then t else ShowAll(Show(t, messages[0], kind), messages[1..], kind)
  }

  /** However many notifications are shown in a row, exactly one remains: the last. */
  lemma {:induction false} ShowAllLeavesLast(t: Tray, messages: seq<string>, kind: string)
    requires |messages| >= 1
    ensures |ShowAll(t, messages, kind).notes| == 1
    ensures ShowAll(t, messages, kind).notes[0].message == messages[|messages| - 1]
    decreases |messages|
  {
    if |messages| > 1 {
      ShowAllLeavesLast(Show(t, messages[0], kind), messages[1..], kind);
    }
  }

  /** The icon table of getNotificationIcon. */
  const Icons: map<string, string> := map[
    "success" := "check-circle",
    "error" := "exclamation-circle",
    "warning" := "exclamation-triangle",
    "info" := "info-circle"]

  /** The colour table of getNotificationColor. */
  const Colors: map<string, string> := map[
    "success" := "#10b981",
    "error" := "#ef4444",
    "warning" := "#f59e0b",
    "info" := "#6366f1"]

  /** getNotificationIcon: the icon of a known kind, the info icon for any other. */
  function Icon(kind: string): (icon: string)
    ensures kind in KnownKinds ==> icon == Icons[kind]
    ensures kind !in KnownKinds ==> icon == Icons["info"]
  {
    if kind in Icons then Icons[kind] else Icons["info"]
  }

  /** getNotificationColor: the colour of a known kind, the info colour for any other. */
  function Color(kind: string): (color: string)
    ensures kind in KnownKinds ==> color == Colors[kind]
    ensures kind !in KnownKinds ==> color == Colors["info"]
  {
    if kind in Colors then Colors[kind] else Colors["info"]
  }

  /** The four known kinds have four different icons and four different colours, and every
      other kind is styled exactly as info. */
  lemma KindStyles(k1: string, k2: string)
    ensures k1 in KnownKinds && k2 in KnownKinds && k1 != k2 ==>
      Icon(k1) != Icon(k2) && Color(k1) != Color(k2)
    ensures k1 !in KnownKinds ==> Icon(k1) == Icon("info") && Color(k1) == Color("info")
  {
  }
}
