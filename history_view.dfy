/** The history page (src/pages/HistoryView.tsx): load the listing on mount,
    render it as cards, copy a URL, delete an entry and reload. */
module HistoryPage {
  import opened Wrappers
  import opened Toasts
  import Models
  import AppStore
  import Database
  import HistoryCmds
  import Wire

  /** Some entry of the list has this id. */
  predicate Shows(items: seq<AppStore.HistoryItem>, id: string) {
    exists k :: 0 <= k < |items| && items[k].id == id
  }

  /** The list the page stores for a table: the listing, received. */
  function Listing(rows: seq<Models.HistoryItem>): seq<AppStore.HistoryItem> {
    Wire.Receive(Database.OrderByCreatedDesc(rows))
  }

  /** The stored listing shows exactly the ids the table holds, each once. */
  lemma ListingMirrorsTable(rows: seq<Models.HistoryItem>, id: string)
    ensures Shows(Listing(rows), id) <==> Database.HasId(rows, id)
    ensures |Listing(rows)| == |rows|
    ensures Database.UniqueIds(rows) ==> AppStore.UniqueIds(Listing(rows))
  {
    var sorted := Database.OrderByCreatedDesc(rows);
    var items := Listing(rows);
    if Shows(items, id) {
      var k :| 0 <= k < |items| && items[k].id == id;
      assert sorted[k] in multiset(rows);
      var j :| 0 <= j < |rows| && rows[j] == sorted[k];
      assert rows[j].id == id;
    }
    if Database.HasId(rows, id) {
      var j :| 0 <= j < |rows| && rows[j].id == id;
      assert rows[j] in multiset(sorted);
      var k :| 0 <= k < |sorted| && sorted[k] == rows[j];
      assert items[k].id == id;
    }
    assert |multiset(sorted)| == |multiset(rows)|;
    if Database.UniqueIds(rows) {
      Wire.ReceiveKeepsIdsUnique(sorted);
    }
  }

  /** Line 93: the provider's label. Any name but `"cloudinary"` reads as R2. */
  function ProviderLabel(provider: string): (shown: string)
    ensures shown == "Cloudinary" <==> provider == "cloudinary"
    ensures shown == "Cloudinary" || shown == "Cloudflare R2"
  {
    if provider == "cloudinary" then "Cloudinary" else "Cloudflare R2"
  }

  /** One card as the page draws it: name, provider label, time in
      milliseconds, URL, the thumbnail when it is non-empty, and whether the
      copy button shows the check mark. */
  datatype Card = Card(
    id: string,
    name: string,
    providerLabel: string,
    createdAtMillis: int,
    url: string,
    thumbnail: Option<string>,
    showsCopied: bool)

  datatype Page = EmptyMessage | CardGrid(cards: seq<Card>)

  /** Lines 79-126: the card for one entry. */
  function RenderCard(item: AppStore.HistoryItem, copiedId: Option<string>): (c: Card)
    ensures c.id == item.id && c.url == item.url && c.name == item.originalName
    ensures c.showsCopied <==> copiedId == Some(item.id)
    ensures c.thumbnail.Some? <==> item.thumbnailBase64 != ""
    ensures c.createdAtMillis == item.createdAt * 1000
  {
    Card(item.id, item.originalName, ProviderLabel(item.provider), item.createdAt * 1000, item.url,
         if item.thumbnailBase64 != "" then Some(item.thumbnailBase64) else None,
         copiedId == Some(item.id))
  }

  /** `history.map(...)`: one card per entry, in order. */
  function RenderCards(items: seq<AppStore.HistoryItem>, copiedId: Option<string>): (cards: seq<Card>)
    ensures |cards| == |items|
    ensures forall i :: 0 <= i < |items| ==> cards[i] == RenderCard(items[i], copiedId)
    decreases |items|
  {
    if items == [] then [] else [RenderCard(items[0], copiedId)] + RenderCards(items[1..], copiedId)
  }

  /** Lines 67-130: an empty list shows the empty message; otherwise every
      entry is a card (no paging). */
  function RenderPage(history: seq<AppStore.HistoryItem>, copiedId: Option<string>): (p: Page)
    ensures p.EmptyMessage? <==> |history| == 0
    ensures p.CardGrid? ==>
      && |p.cards| == |history|
      && forall i :: 0 <= i < |history| ==>
           p.cards[i].id == history[i].id && p.cards[i].url == history[i].url
           && (p.cards[i].showsCopied <==> copiedId == Some(history[i].id))
  {
    if |history| == 0 then EmptyMessage else CardGrid(RenderCards(history, copiedId))
  }

  /** With unique ids at most one card shows the check mark. */
  lemma AtMostOneCopied(history: seq<AppStore.HistoryItem>, copiedId: Option<string>)
    requires AppStore.UniqueIds(history)
    ensures var p := RenderPage(history, copiedId);
      p.CardGrid? ==> forall i, j :: 0 <= i < j < |p.cards| ==> !(p.cards[i].showsCopied && p.cards[j].showsCopied)
  {
  }

  /** The toast a failed load raises. */
  function LoadFailedToast(error: string): (t: Toast)
    ensures t.variant == Destructive && t.description == error
    ensures t.title == "Failed to load history"
  {
    Toast("Failed to load history", error, Destructive)
  }

  /** The error `delete_history_item` answers with, when it fails. */
  function DeleteError(open: Option<string>, fault: Option<string>): (e: string)
    requires open.Some? || fault.Some?
    ensures open.Some? ==> e == open.value
    ensures open.None? ==> e == "Failed to delete history: " + fault.value
  {
    if open.Some? then open.value else "Failed to delete history: " + fault.value
  }

  class HistoryView {
    const store: AppStore.Store
    const db: Database.Database
    var copiedId: Option<string>
    /** Copy-indicator timers started and not yet fired. */
    var pendingCopyTimers: nat
    var toasts: seq<Toast>

    /** The table keeps its key and the stored list has unique ids. */
    ghost predicate Valid()
      reads this, store, db
    {
      db.Valid() && AppStore.UniqueIds(store.history)
    }

    /** The page mounts and its effect loads the history once (lines 13-15).
        `open` and `fault` are the failures of opening and querying the
        database, if any. */
    constructor (store: AppStore.Store, db: Database.Database, open: Option<string>, fault: Option<Database.QueryFault>)
      requires db.Valid() && AppStore.UniqueIds(store.history)
      modifies store
      ensures Valid()
      ensures this.store == store && this.db == db && copiedId.None? && pendingCopyTimers == 0
      ensures var reply := HistoryCmds.GetHistory(db, open, fault);
        && (reply.Success? ==> store.Snapshot() == old(store.Snapshot()).(history := Listing(db.rows)) && toasts == [])
        && (reply.Failure? ==> store.Snapshot() == old(store.Snapshot()) && toasts == [LoadFailedToast(reply.error)])
    {
      this.store := store;
      this.db := db;
      copiedId := None;
      pendingCopyTimers := 0;
      toasts := [];
      new;
      LoadHistory(open, fault);
    }

    /** `loadHistory`: replace the stored list with the listing, or raise a
        toast and keep the old list. */
    method LoadHistory(open: Option<string>, fault: Option<Database.QueryFault>)
      requires Valid()
      modifies this, store
      ensures Valid()
      ensures copiedId == old(copiedId) && pendingCopyTimers == old(pendingCopyTimers)
      ensures var reply := HistoryCmds.GetHistory(db, open, fault);
        && (reply.Success? ==>
             store.Snapshot() == old(store.Snapshot()).(history := Listing(db.rows)) && toasts == old(toasts))
        && (reply.Failure? ==>
             store.Snapshot() == old(store.Snapshot()) && toasts == old(toasts) + [LoadFailedToast(reply.error)])
    {
      var reply := HistoryCmds.GetHistory(db, open, fault);
      match reply {
        case Success(list) =>
          ListingMirrorsTable(db.rows, "");
          store.SetHistory(Wire.Receive(list));
        case Failure(e) =>
          toasts := toasts + [LoadFailedToast(e)];
      }
    }

    /** `handleCopy`: write `url` to the clipboard (`writeFault` is its refusal,
        if any); on success mark entry `id` and start a timer. */
    method HandleCopy(url: string, id: string, writeFault: Option<string>)
      modifies this
      ensures writeFault.None? ==>
        && copiedId == Some(id) && pendingCopyTimers == old(pendingCopyTimers) + 1
        && toasts == old(toasts) + [Toast("Copied", "URL copied to clipboard", Plain)]
      ensures writeFault.Some? ==>
        && copiedId == old(copiedId) && pendingCopyTimers == old(pendingCopyTimers)
        && toasts == old(toasts) + [Toast("Copy failed", writeFault.value, Destructive)]
    {
      if writeFault.None? {
        copiedId := Some(id);
        pendingCopyTimers := pendingCopyTimers + 1;
        toasts := toasts + [Toast("Copied", "URL copied to clipboard", Plain)];
      } else {
        toasts := toasts + [Toast("Copy failed", writeFault.value, Destructive)];
      }
    }

    /** A 2-second copy timer fires and clears the mark, whichever entry it is
        on now: a newer copy's mark goes with an older copy's timer. */
    method CopyTimerElapsed()
      requires pendingCopyTimers > 0
      modifies this
      ensures copiedId.None? && pendingCopyTimers == old(pendingCopyTimers) - 1
      ensures toasts == old(toasts)
    {
      copiedId := None;
      pendingCopyTimers := pendingCopyTimers - 1;
    }

    /** `handleDelete`: delete entry `id` (`url` and `provider` are sent and
        ignored), then reload and raise "Deleted". A reload that fails raises
        its own toast and does not stop "Deleted". */
    method HandleDelete(id: string, url: string, provider: string,
                        deleteOpen: Option<string>, deleteFault: Option<string>,
                        loadOpen: Option<string>, loadFault: Option<Database.QueryFault>)
      requires Valid()
      modifies this, store, db
      ensures Valid()
      ensures copiedId == old(copiedId) && pendingCopyTimers == old(pendingCopyTimers)
      ensures deleteOpen.Some? || deleteFault.Some? ==>
        && db.rows == old(db.rows) && store.Snapshot() == old(store.Snapshot())
        && toasts == old(toasts) + [Toast("Delete failed", DeleteError(deleteOpen, deleteFault), Destructive)]
      ensures deleteOpen.None? && deleteFault.None? ==>
        && db.rows == Database.WithoutId(old(db.rows), id)
        && var reply := HistoryCmds.GetHistory(db, loadOpen, loadFault);
           && (reply.Success? ==>
                && store.Snapshot() == old(store.Snapshot()).(history := Listing(db.rows))
                && toasts == old(toasts) + [Toast("Deleted", "Item removed from history", Plain)])
           && (reply.Failure? ==>
                && store.Snapshot() == old(store.Snapshot())
                && toasts == old(toasts) + [LoadFailedToast(reply.error), Toast("Deleted", "Item removed from history", Plain)])
      ensures deleteOpen.None? && deleteFault.None? && loadOpen.None? && loadFault.None? ==>
        !Shows(store.history, id)
    {
      var r := HistoryCmds.DeleteHistoryItem(db, id, url, provider, deleteOpen, deleteFault);
      if r.Failure? {
        toasts := toasts + [Toast("Delete failed", r.error, Destructive)];
        return;
      }
      assert !Database.HasId(db.rows, id);
      LoadHistory(loadOpen, loadFault);
      toasts := toasts + [Toast("Deleted", "Item removed from history", Plain)];
      if loadOpen.None? && loadFault.None? {
        assert store.history == Listing(db.rows);
        ListingMirrorsTable(db.rows, id);
      }
    }
  }
}
