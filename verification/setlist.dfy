/**
 * The setlist editor of a celebration: the ordered list of songs chosen for it, each with the
 * key it is to be played in, the category filter of the catalogue search, and the payload
 * sent when the setlist is saved.
 */
module Setlist {

  /** A song of the catalogue, as the search lists it. */
  datatype CifraAcervo = CifraAcervo(id: int, nomeMusica: string, interprete: string)

  /** A song of the setlist, with the key it is played in (`tomExecucao`). */
  datatype CifraSetlist = CifraSetlist(cifraId: int, nomeMusica: string, interprete: string,
                                       tomExecucao: string)

  /** One entry of the save payload: the song, its key and its 1-based place in the setlist. */
  datatype SetlistEntry = SetlistEntry(cifraId: int, tomExecucao: string, ordem: int)

  /** The key a newly added song starts in. */
  const DefaultTom: string := "G"

  /** `setlist.find(item => item.cifraId === id)` finds an item. */
  predicate Contains(setlist: seq<CifraSetlist>, id: int) {
    exists k :: 0 <= k < |setlist| && setlist[k].cifraId == id
  }

  /** No song appears twice in the setlist. */
  predicate DistinctIds(setlist: seq<CifraSetlist>) {
    forall i, j :: 0 <= i < j < |setlist| ==> setlist[i].cifraId != setlist[j].cifraId
  }

  // ---------------------------------------------------------------- adding a song

  /** The setlist item a catalogue song becomes when it is added. */
  function NewItem(cifra: CifraAcervo): CifraSetlist {
    CifraSetlist(cifra.id, cifra.nomeMusica, cifra.interprete, DefaultTom)
  }

  /** `handleAdd`: nothing happens when the song is already in the setlist. */
  function Added(setlist: seq<CifraSetlist>, cifra: CifraAcervo): seq<CifraSetlist> {
    if Contains(setlist, cifra.id) then setlist else setlist + [NewItem(cifra)]
  }

  /**
   * Adding a song that is not yet listed puts it, in the default key, after every song already
   * listed; adding a listed song changes nothing. Either way the song is listed afterwards and
   * no song appears twice that did not before.
   */
  lemma AddedFacts(setlist: seq<CifraSetlist>, cifra: CifraAcervo)
    ensures Contains(setlist, cifra.id) ==> Added(setlist, cifra) == setlist
    ensures !Contains(setlist, cifra.id) ==>
      |Added(setlist, cifra)| == |setlist| + 1 && Added(setlist, cifra)[..|setlist|] == setlist
      && Added(setlist, cifra)[|setlist|]
         == CifraSetlist(cifra.id, cifra.nomeMusica, cifra.interprete, DefaultTom)
    ensures Contains(Added(setlist, cifra), cifra.id)
    ensures DistinctIds(setlist) ==> DistinctIds(Added(setlist, cifra))
  {
    var r := Added(setlist, cifra);
    if !Contains(setlist, cifra.id) {
      assert r[|setlist|] == NewItem(cifra);
      assert r[..|setlist|] == setlist;
    }
  }

  // ---------------------------------------------------------------- removing a song

  /** `handleRemove`: every item of that song goes, the others keep their order. */
  function Removed(setlist: seq<CifraSetlist>, id: int): seq<CifraSetlist> {
    if setlist == [] then []
    else (if setlist[0].cifraId == id then [] else [setlist[0]]) + Removed(setlist[1..], id)
  }

  /** An item is left after the removal exactly when it was there and is of another song. */
  lemma {:induction false} RemovedMembers(setlist: seq<CifraSetlist>, id: int, x: CifraSetlist)
    ensures x in Removed(setlist, id) <==> x in setlist && x.cifraId != id
  {
    if setlist != [] {
      RemovedMembers(setlist[1..], id, x);
      assert setlist == [setlist[0]] + setlist[1..];
    }
  }

  /** Removing from two stretches of a setlist removes from each: the order is kept. */
  lemma {:induction false} RemovedConcat(a: seq<CifraSetlist>, b: seq<CifraSetlist>, id: int)
    ensures Removed(a + b, id) == Removed(a, id) + Removed(b, id)
  {
    if a == [] {
      assert a + b == b;
    } else {
      assert (a + b)[1..] == a[1..] + b;
      RemovedConcat(a[1..], b, id);
    }
  }

  /** Removing a song that is not listed changes nothing. */
  lemma {:induction false} RemovedAbsent(setlist: seq<CifraSetlist>, id: int)
    requires !Contains(setlist, id)
    ensures Removed(setlist, id) == setlist
  {
    if setlist != [] {
      assert !Contains(setlist[1..], id) by {
        forall k | 0 <= k < |setlist[1..]|
          ensures setlist[1..][k].cifraId != id
        {
          assert setlist[1..][k] == setlist[k + 1];
        }
      }
      RemovedAbsent(setlist[1..], id);
      assert setlist == [setlist[0]] + setlist[1..];
    }
  }

  /** After the removal the song is gone, and a setlist without repeats stays without them. */
  lemma RemovedFacts(setlist: seq<CifraSetlist>, id: int)
    ensures !Contains(Removed(setlist, id), id)
    ensures |Removed(setlist, id)| <= |setlist|
    ensures DistinctIds(setlist) ==> DistinctIds(Removed(setlist, id))
  {
    RemovedLength(setlist, id);
    var r := Removed(setlist, id);
    forall k | 0 <= k < |r|
      ensures r[k].cifraId != id
    {
      RemovedMembers(setlist, id, r[k]);
    }
    if DistinctIds(setlist) {
      RemovedDistinct(setlist, id);
    }
  }

  lemma {:induction false} RemovedLength(setlist: seq<CifraSetlist>, id: int)
    ensures |Removed(setlist, id)| <= |setlist|
  {
    if setlist != [] {
      RemovedLength(setlist[1..], id);
    }
  }

  lemma {:induction false} RemovedDistinct(setlist: seq<CifraSetlist>, id: int)
    requires DistinctIds(setlist)
    ensures DistinctIds(Removed(setlist, id))
  {
    if setlist != [] {
      var tail := setlist[1..];
      assert DistinctIds(tail) by {
        forall i, j | 0 <= i < j < |tail|
          ensures tail[i].cifraId != tail[j].cifraId
        {
          assert tail[i] == setlist[i + 1] && tail[j] == setlist[j + 1];
        }
      }
      RemovedDistinct(tail, id);
      var rest := Removed(tail, id);
      if setlist[0].cifraId != id {
        forall k | 0 <= k < |rest|
          ensures rest[k].cifraId != setlist[0].cifraId
        {
          RemovedMembers(tail, id, rest[k]);
          var m :| 0 <= m < |tail| && tail[m] == rest[k];
          assert tail[m] == setlist[m + 1];
        }
        var r := [setlist[0]] + rest;
        forall i, j | 0 <= i < j < |r|
          ensures r[i].cifraId != r[j].cifraId
        {
          assert r[j] == rest[j - 1];
          if i > 0 {
            assert r[i] == rest[i - 1];
          }
        }
      }
    }
  }

  /** Adding a song that was not listed and removing it again gives back the setlist. */
  lemma RemoveUndoesAdd(setlist: seq<CifraSetlist>, cifra: CifraAcervo)
    requires !Contains(setlist, cifra.id)
    ensures Removed(Added(setlist, cifra), cifra.id) == setlist
  {
    RemovedConcat(setlist, [NewItem(cifra)], cifra.id);
    RemovedAbsent(setlist, cifra.id);
    assert Removed([NewItem(cifra)], cifra.id) == [];
  }

  // ---------------------------------------------------------------- changing a key

  /** `handleTomChange`: the items of that song get the new key; nothing else changes. */
  function WithTom(setlist: seq<CifraSetlist>, id: int, novoTom: string): seq<CifraSetlist> {
    if setlist == [] then []
    else
      var item := setlist[0];
      [if item.cifraId == id then item.(tomExecucao := novoTom) else item]
        + WithTom(setlist[1..], id, novoTom)
  }

  /**
   * The key change keeps every place of the setlist: the same song stays at every place, the
   * items of the chosen song get the new key and every other item is left as it was.
   */
  lemma {:induction false} WithTomAt(setlist: seq<CifraSetlist>, id: int, novoTom: string)
    ensures |WithTom(setlist, id, novoTom)| == |setlist|
    ensures forall k :: 0 <= k < |setlist| ==>
      WithTom(setlist, id, novoTom)[k].cifraId == setlist[k].cifraId
      && WithTom(setlist, id, novoTom)[k].nomeMusica == setlist[k].nomeMusica
      && WithTom(setlist, id, novoTom)[k].interprete == setlist[k].interprete
      && WithTom(setlist, id, novoTom)[k].tomExecucao
         == (if setlist[k].cifraId == id then novoTom else setlist[k].tomExecucao)
  {
    if setlist != [] {
      WithTomAt(setlist[1..], id, novoTom);
      var r := WithTom(setlist, id, novoTom);
      forall k | 1 <= k < |setlist|
        ensures r[k] == WithTom(setlist[1..], id, novoTom)[k - 1]
        ensures setlist[k] == setlist[1..][k - 1]
      {
      }
    }
  }

  /** The key change keeps the songs and their order, so it keeps a setlist without repeats. */
  lemma WithTomKeepsSongs(setlist: seq<CifraSetlist>, id: int, novoTom: string)
    ensures Contains(WithTom(setlist, id, novoTom), id) <==> Contains(setlist, id)
    ensures DistinctIds(setlist) ==> DistinctIds(WithTom(setlist, id, novoTom))
  {
    WithTomAt(setlist, id, novoTom);
    var r := WithTom(setlist, id, novoTom);
    if Contains(setlist, id) {
      var k :| 0 <= k < |setlist| && setlist[k].cifraId == id;
      assert r[k].cifraId == id;
    }
    if Contains(r, id) {
      var k :| 0 <= k < |r| && r[k].cifraId == id;
      assert setlist[k].cifraId == id;
    }
  }

  /** Setting the same key twice is the same as setting it once. */
  lemma WithTomIdempotent(setlist: seq<CifraSetlist>, id: int, novoTom: string)
    ensures WithTom(WithTom(setlist, id, novoTom), id, novoTom) == WithTom(setlist, id, novoTom)
  {
    var once := WithTom(setlist, id, novoTom);
    WithTomAt(setlist, id, novoTom);
    WithTomAt(once, id, novoTom);
    var twice := WithTom(once, id, novoTom);
    forall k | 0 <= k < |once|
      ensures twice[k] == once[k]
    {
    }
  }

  // ---------------------------------------------------------------- the category filter

  /** `filter(id => id !== c)` on the selected categories. */
  function Without(ids: seq<int>, c: int): seq<int> {
    if ids == [] then []
    else (if ids[0] == c then [] else [ids[0]]) + Without(ids[1..], c)
  }

  lemma {:induction false} WithoutMembers(ids: seq<int>, c: int, x: int)
    ensures x in Without(ids, c) <==> x in ids && x != c
  {
    if ids != [] {
      WithoutMembers(ids[1..], c, x);
      assert ids == [ids[0]] + ids[1..];
    }
  }

  lemma {:induction false} WithoutAbsent(ids: seq<int>, c: int)
    requires c !in ids
    ensures Without(ids, c) == ids
  {
    if ids != [] {
      assert ids == [ids[0]] + ids[1..];
      WithoutAbsent(ids[1..], c);
    }
  }

  lemma {:induction false} WithoutConcat(a: seq<int>, b: seq<int>, c: int)
    ensures Without(a + b, c) == Without(a, c) + Without(b, c)
  {
    if a == [] {
      assert a + b == b;
    } else {
      assert (a + b)[1..] == a[1..] + b;
      WithoutConcat(a[1..], b, c);
    }
  }

  /** `handleFilterChange`: a selected category is unselected, any other is appended. */
  function Toggled(ids: seq<int>, c: int): seq<int> {
    if c in ids then Without(ids, c) else ids + [c]
  }

  /**
   * A toggle flips exactly the chosen category: it is selected afterwards exactly when it was
   * not before, and every other category keeps its state.
   */
  lemma ToggledMembers(ids: seq<int>, c: int, x: int)
    ensures x == c ==> (x in Toggled(ids, c) <==> x !in ids)
    ensures x != c ==> (x in Toggled(ids, c) <==> x in ids)
  {
    WithoutMembers(ids, c, x);
  }

  /** Toggling a category that was not selected twice gives back the same list. */
  lemma ToggleTwiceAbsent(ids: seq<int>, c: int)
    requires c !in ids
    ensures Toggled(Toggled(ids, c), c) == ids
  {
    assert c in ids + [c];
    WithoutConcat(ids, [c], c);
    WithoutAbsent(ids, c);
    assert Without([c], c) == [];
  }

  /** Toggling any category twice gives back the same selection, if not the same order. */
  lemma ToggleTwiceSelection(ids: seq<int>, c: int, x: int)
    ensures x in Toggled(Toggled(ids, c), c) <==> x in ids
  {
    ToggledMembers(ids, c, x);
    ToggledMembers(Toggled(ids, c), c, x);
  }

  // ---------------------------------------------------------------- the save payload

  /** The entries of the payload from the given place of the setlist on. */
  function PayloadFrom(setlist: seq<CifraSetlist>, start: int): seq<SetlistEntry>
    decreases |setlist|
  {
    if setlist == [] then []
    else
      [SetlistEntry(setlist[0].cifraId, setlist[0].tomExecucao, start + 1)]
        + PayloadFrom(setlist[1..], start + 1)
  }

  /** `setlist.map((item, index) => ...)`: the song, its key and `ordem: index + 1`. */
  function Payload(setlist: seq<CifraSetlist>): seq<SetlistEntry> {
    PayloadFrom(setlist, 0)
  }

  lemma {:induction false} PayloadFromAt(setlist: seq<CifraSetlist>, start: int)
    ensures |PayloadFrom(setlist, start)| == |setlist|
    ensures forall k :: 0 <= k < |setlist| ==>
      PayloadFrom(setlist, start)[k]
        == SetlistEntry(setlist[k].cifraId, setlist[k].tomExecucao, start + k + 1)
  {
    if setlist != [] {
      PayloadFromAt(setlist[1..], start + 1);
      var r := PayloadFrom(setlist, start);
      forall k | 1 <= k < |setlist|
        ensures r[k] == PayloadFrom(setlist[1..], start + 1)[k - 1]
        ensures setlist[k] == setlist[1..][k - 1]
      {
      }
    }
  }

  /**
   * The payload has one entry per place of the setlist, in setlist order, carrying that place's
   * song and key; the orders run 1, 2, ..., n, so they are distinct and increasing.
   */
  lemma PayloadFacts(setlist: seq<CifraSetlist>)
    ensures |Payload(setlist)| == |setlist|
    ensures forall k :: 0 <= k < |setlist| ==>
      Payload(setlist)[k].cifraId == setlist[k].cifraId
      && Payload(setlist)[k].tomExecucao == setlist[k].tomExecucao
      && Payload(setlist)[k].ordem == k + 1
    ensures forall i, j :: 0 <= i < j < |setlist| ==> Payload(setlist)[i].ordem < Payload(setlist)[j].ordem
  {
    PayloadFromAt(setlist, 0);
  }

  /** Reading the payload in order of `ordem` gives back each place's song and key. */
  function SongAndKey(e: SetlistEntry): (int, string) {
    (e.cifraId, e.tomExecucao)
  }

  lemma PayloadKeepsSongs(setlist: seq<CifraSetlist>, k: int)
    requires 0 <= k < |setlist|
    ensures exists i :: 0 <= i < |Payload(setlist)| && Payload(setlist)[i].ordem == k + 1
    ensures forall i :: 0 <= i < |Payload(setlist)| && Payload(setlist)[i].ordem == k + 1 ==>
      SongAndKey(Payload(setlist)[i]) == (setlist[k].cifraId, setlist[k].tomExecucao)
  {
    PayloadFacts(setlist);
    assert Payload(setlist)[k].ordem == k + 1;
  }

  // ---------------------------------------------------------------- the page state

  /** The editor page's state: the setlist being edited and the selected categories. */
  class CelebracaoEditor {
    var setlist: seq<CifraSetlist>
    var filterCategorias: seq<int>

    /** The page mounts with an empty setlist and no category selected. */
    constructor()
      ensures setlist == [] && filterCategorias == []
    {
      setlist := [];
      filterCategorias := [];
    }

    /** The setlist read from the server replaces the empty one; the filter is untouched. */
    method LoadSetlist(loaded: seq<CifraSetlist>)
      modifies this
      ensures setlist == loaded && filterCategorias == old(filterCategorias)
    {
      setlist := loaded;
    }

    method HandleAdd(cifra: CifraAcervo)
      modifies this
      ensures setlist == Added(old(setlist), cifra)
      ensures filterCategorias == old(filterCategorias)
      ensures Contains(setlist, cifra.id)
      ensures old(DistinctIds(setlist)) ==> DistinctIds(setlist)
    {
      AddedFacts(setlist, cifra);
      setlist := Added(setlist, cifra);
    }

    method HandleRemove(cifraId: int)
      modifies this
      ensures setlist == Removed(old(setlist), cifraId)
      ensures filterCategorias == old(filterCategorias)
      ensures !Contains(setlist, cifraId)
      ensures old(DistinctIds(setlist)) ==> DistinctIds(setlist)
    {
      RemovedFacts(setlist, cifraId);
      setlist := Removed(setlist, cifraId);
    }

    method HandleTomChange(cifraId: int, novoTom: string)
      modifies this
      ensures setlist == WithTom(old(setlist), cifraId, novoTom)
      ensures filterCategorias == old(filterCategorias)
      ensures |setlist| == old(|setlist|)
      ensures old(DistinctIds(setlist)) ==> DistinctIds(setlist)
    {
      WithTomAt(setlist, cifraId, novoTom);
      WithTomKeepsSongs(setlist, cifraId, novoTom);
      setlist := WithTom(setlist, cifraId, novoTom);
    }

    method HandleFilterChange(categoryId: int)
      modifies this
      ensures filterCategorias == Toggled(old(filterCategorias), categoryId)
      ensures setlist == old(setlist)
      ensures categoryId in filterCategorias <==> categoryId !in old(filterCategorias)
    {
      ToggledMembers(filterCategorias, categoryId, categoryId);
      filterCategorias := Toggled(filterCategorias, categoryId);
    }

    /** The payload `handleSubmit` posts for the current setlist. */
    function SubmitPayload(): seq<SetlistEntry>
      reads this
    {
      Payload(setlist)
    }
  }
}
