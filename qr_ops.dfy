/**
 * The new working lists that the store's QR operations build before they commit them:
 * `filter` for delete, `map` for update (append is plain concatenation).
 */
module QrOps {
  import opened Types
  import opened Lists

  /** The test `qr => qr.id !== id` that delete keeps records by. */
  function IdIsNot(id: string): QR -> bool {
    (q: QR) => q.id != id
  }

  /** True when no record in `qrs` carries `id`. */
  predicate IdAbsent(qrs: seq<QR>, id: string) {
    forall i :: 0 <= i < |qrs| ==> qrs[i].id != id
  }

  /** `qrData.filter((qr) => qr.id !== id)`: every record with that id goes, all others stay. */
  function RemoveId(qrs: seq<QR>, id: string): (r: seq<QR>)
    ensures forall q :: q in r <==> q in qrs && q.id != id
    ensures IdAbsent(r, id)
    ensures IdAbsent(qrs, id) ==> r == qrs
    ensures |r| <= |qrs|
  {
    var r := Filter(qrs, IdIsNot(id));
    forall q ensures q in r <==> q in qrs && q.id != id {
      FilterMembers(qrs, IdIsNot(id), q);
    }
    r
  }

  /** Delete keeps the survivors in their order: it works piece by piece along the list. */
  lemma RemoveIdKeepsOrder(a: seq<QR>, b: seq<QR>, id: string)
    ensures RemoveId(a + b, id) == RemoveId(a, id) + RemoveId(b, id)
  {
    FilterConcat(a, b, IdIsNot(id));
  }

  /** Adding a record under a fresh id and then deleting that id gives back the original list. */
  lemma AddThenDelete(qrs: seq<QR>, newQr: QR)
    requires IdAbsent(qrs, newQr.id)
    ensures RemoveId(qrs + [newQr], newQr.id) == qrs
  {
    RemoveIdKeepsOrder(qrs, [newQr], newQr.id);
    assert RemoveId([newQr], newQr.id) == [];
  }

  /** `qrData.map((qr) => (qr.id === id ? updatedQr : qr))`. */
  function ReplaceId(qrs: seq<QR>, id: string, updated: QR): (r: seq<QR>)
    ensures |r| == |qrs|
    ensures forall i :: 0 <= i < |r| ==> r[i] == if qrs[i].id == id then updated else qrs[i]
    ensures IdAbsent(qrs, id) ==> r == qrs
  {
    if qrs == [] then []
    else [if qrs[0].id == id then updated else qrs[0]] + ReplaceId(qrs[1..], id, updated)
  }
}
