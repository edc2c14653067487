/** The `App` component (App.tsx): the favourites toggle as a pure update
    of the favourites list, and the component's two state slots, `state`
    and `showSavedOnly`, as the fields of a class whose methods are the
    component's handlers. */
module App {
  import opened Wrappers
  import opened Types
  import opened GeminiService

  // ---------------------------------------------------------------------
  // Favourites, keyed by id
  // ---------------------------------------------------------------------

  /** `favs.some(f => f.id === id)`. */
  predicate HasId(favs: seq<GiftRecommendation>, id: string) {
    exists i :: 0 <= i < |favs| && favs[i].id == id
  }

  /** `favs.filter(f => f.id !== id)`. */
  function WithoutId(favs: seq<GiftRecommendation>, id: string): (r: seq<GiftRecommendation>)
    ensures !HasId(r, id)
    ensures |r| <= |favs|
    ensures forall g :: g in r ==> g in favs
    decreases |favs|
  {
    if favs == [] then []
    else if favs[0].id == id then WithoutId(favs[1..], id)
    else [favs[0]] + WithoutId(favs[1..], id)
  }

  /** Filtering a list with no entry for `id` changes nothing. */
  lemma {:induction false} WithoutAbsentId(favs: seq<GiftRecommendation>, id: string)
    requires !HasId(favs, id)
    ensures WithoutId(favs, id) == favs
    decreases |favs|
  {
    if favs != [] {
      assert favs[0].id != id;
      assert !HasId(favs[1..], id) by {
        forall i | 0 <= i < |favs[1..]| ensures favs[1..][i].id != id {
          assert favs[1..][i] == favs[i + 1];
        }
      }
      WithoutAbsentId(favs[1..], id);
      assert favs == [favs[0]] + favs[1..];
    }
  }

  /** Filtering works piecewise: it keeps the order of what it keeps. */
  lemma {:induction false} WithoutIdAppend(a: seq<GiftRecommendation>, b: seq<GiftRecommendation>, id: string)
    ensures WithoutId(a + b, id) == WithoutId(a, id) + WithoutId(b, id)
    decreases |a|
  {
    if a == [] {
      assert a + b == b;
    } else {
      WithoutIdAppend(a[1..], b, id);
      assert (a + b)[1..] == a[1..] + b;
      assert (a + b)[0] == a[0];
    }
  }

  /** Filtering keeps every entry whose id differs: an id other than
      `id` is present afterwards exactly when it was present before. */
  lemma {:induction false} WithoutIdKeepsOtherIds(favs: seq<GiftRecommendation>, id: string, other: string)
    requires other != id
    ensures HasId(WithoutId(favs, id), other) <==> HasId(favs, other)
    decreases |favs|
  {
    if favs != [] {
      WithoutIdKeepsOtherIds(favs[1..], id, other);
      var rest := WithoutId(favs[1..], id);
      assert HasId(favs, other) <==> favs[0].id == other || HasId(favs[1..], other) by {
        if HasId(favs, other) {
          var i :| 0 <= i < |favs| && favs[i].id == other;
          if i > 0 {
            assert favs[1..][i - 1] == favs[i];
          }
        }
        if HasId(favs[1..], other) {
          var i :| 0 <= i < |favs[1..]| && favs[1..][i].id == other;
          assert favs[i + 1] == favs[1..][i];
        }
      }
      if favs[0].id != id {
        var r := [favs[0]] + rest;
        assert HasId(r, other) <==> favs[0].id == other || HasId(rest, other) by {
          if HasId(r, other) {
            var i :| 0 <= i < |r| && r[i].id == other;
            if i > 0 {
              assert rest[i - 1] == r[i];
            }
          }
          if HasId(rest, other) {
            var i :| 0 <= i < |rest| && rest[i].id == other;
            assert r[i + 1] == rest[i];
          }
          if favs[0].id == other {
            assert r[0] == favs[0];
          }
        }
      }
    }
  }

  /** The state updater of `toggleFavorite`: drop every entry with the
      gift's id if there is one, otherwise append the gift. Afterwards the
      gift's id is present exactly when it was absent, and every other id
      is present exactly as before. */
  function Toggle(favs: seq<GiftRecommendation>, gift: GiftRecommendation): (r: seq<GiftRecommendation>)
    ensures HasId(r, gift.id) <==> !HasId(favs, gift.id)
    ensures forall other :: other != gift.id ==> (HasId(r, other) <==> HasId(favs, other))
    ensures !HasId(favs, gift.id) ==> |r| == |favs| + 1 && r[..|favs|] == favs && r[|favs|] == gift
    ensures HasId(favs, gift.id) ==> |r| < |favs| && forall g :: g in r ==> g in favs && g.id != gift.id
    ensures HasId(favs, gift.id) ==> r == WithoutId(favs, gift.id)
  {
    if HasId(favs, gift.id) then
      var r := WithoutId(favs, gift.id);
      assert forall other :: other != gift.id ==> (HasId(r, other) <==> HasId(favs, other)) by {
        forall other | other != gift.id ensures HasId(r, other) <==> HasId(favs, other) {
          WithoutIdKeepsOtherIds(favs, gift.id, other);
        }
      }
      assert |r| < |favs| by {
        var i :| 0 <= i < |favs| && favs[i].id == gift.id;
        WithoutIdAppend(favs[..i], favs[i..], gift.id);
        assert favs == favs[..i] + favs[i..];
        assert favs[i..] == [favs[i]] + favs[i + 1..];
        assert WithoutId(favs[i..], gift.id) == WithoutId(favs[i + 1..], gift.id);
      }
      assert forall g :: g in r ==> g.id != gift.id by {
        forall g | g in r ensures g.id != gift.id {
          var k :| 0 <= k < |r| && r[k] == g;
        }
      }
      r
    else
      var r := favs + [gift];
      assert r[|favs|] == gift;
      assert forall other :: other != gift.id ==> (HasId(r, other) <==> HasId(favs, other)) by {
        forall other | other != gift.id ensures HasId(r, other) <==> HasId(favs, other) {
          if HasId(favs, other) {
            var i :| 0 <= i < |favs| && favs[i].id == other;
            assert r[i] == favs[i];
          }
        }
      }
      r
  }

  /** Toggling a gift that is not a favourite twice gives back the original list. */
  lemma ToggleTwiceRestores(favs: seq<GiftRecommendation>, gift: GiftRecommendation)
    requires !HasId(favs, gift.id)
    ensures Toggle(Toggle(favs, gift), gift) == favs
  {
    var once := favs + [gift];
    assert Toggle(favs, gift) == once;
    assert HasId(once, gift.id) by {
      assert once[|favs|] == gift;
    }
    WithoutIdAppend(favs, [gift], gift.id);
    WithoutAbsentId(favs, gift.id);
    assert WithoutId([gift], gift.id) == [];
  }

  /** Toggling a gift that is already a favourite twice leaves the list
      without its old entries and with the gift at the end. */
  lemma ToggleTwiceMovesToEnd(favs: seq<GiftRecommendation>, gift: GiftRecommendation)
    requires HasId(favs, gift.id)
    ensures Toggle(Toggle(favs, gift), gift) == WithoutId(favs, gift.id) + [gift]
  {
  }

  /** No id appears twice. */
  predicate UniqueIds(favs: seq<GiftRecommendation>) {
    forall i, j :: 0 <= i < j < |favs| ==> favs[i].id != favs[j].id
  }

  lemma {:induction false} WithoutIdKeepsUnique(favs: seq<GiftRecommendation>, id: string)
    requires UniqueIds(favs)
    ensures UniqueIds(WithoutId(favs, id))
    decreases |favs|
  {
    if favs != [] {
      WithoutIdKeepsUnique(favs[1..], id);
      var rest := WithoutId(favs[1..], id);
      if favs[0].id != id {
        assert !HasId(rest, favs[0].id) by {
          WithoutIdKeepsOtherIds(favs[1..], id, favs[0].id);
          forall j | 0 <= j < |favs[1..]| ensures favs[1..][j].id != favs[0].id {
            assert favs[1..][j] == favs[j + 1];
          }
        }
        var r := [favs[0]] + rest;
        forall i, j | 0 <= i < j < |r| ensures r[i].id != r[j].id {
          if i == 0 {
            assert r[j] == rest[j - 1];
          } else {
            assert r[i] == rest[i - 1] && r[j] == rest[j - 1];
          }
        }
      }
    }
  }

  /** Toggling keeps the favourites free of duplicate ids. */
  lemma ToggleKeepsIdsUnique(favs: seq<GiftRecommendation>, gift: GiftRecommendation)
    requires UniqueIds(favs)
    ensures UniqueIds(Toggle(favs, gift))
  {
    if HasId(favs, gift.id) {
      WithoutIdKeepsUnique(favs, gift.id);
    } else {
      var r := Toggle(favs, gift);
      forall i, j | 0 <= i < j < |r| ensures r[i].id != r[j].id {
        if j == |favs| {
          assert r[i] == favs[i];
        } else {
          assert r[i] == favs[i] && r[j] == favs[j];
        }
      }
    }
  }

  /** The message shown for a failed fetch: an `Error`'s message, or
      'Something went wrong' for any other thrown value. */
  function ErrorMessage(thrown: Thrown): (m: string)
    ensures thrown.ErrorObject? ==> m == thrown.message
    ensures thrown.OtherValue? ==> m == "Something went wrong"
  {
    match thrown
    case ErrorObject(message) => message
    case OtherValue => "Something went wrong"
  }

  /** A failed call to the service always shows its one fixed message. */
  lemma ServiceFailureMessage(input: UserInput, callModel: Request -> ModelReply, parse: string -> Parsed)
    requires GetGiftRecommendations(input, callModel, parse).Failure?
    ensures ErrorMessage(GetGiftRecommendations(input, callModel, parse).error) == FetchFailedMessage
  {
  }

  // ---------------------------------------------------------------------
  // The component's state
  // ---------------------------------------------------------------------

  class GiftGenie {
    /** The `state` slot. */
    var state: AppState
    /** The `showSavedOnly` slot. */
    var showSavedOnly: bool

    /** The initial values of both slots. */
    constructor ()
      ensures state == AppState(false, [], [], None)
      ensures !showSavedOnly
    {
      state := AppState(false, [], [], None);
      showSavedOnly := false;
    }

    /** The mount effect: a stored favourites value that is present,
        non-empty and parses replaces the favourites; an absent or empty
        value, or one that fails to parse, leaves everything as it was. */
    method LoadFavorites(saved: Option<string>, parse: string -> Option<seq<GiftRecommendation>>)
      modifies this
      ensures saved.Some? && saved.value != "" && parse(saved.value).Some? ==>
        state == old(state).(favorites := parse(saved.value).value)
      ensures !(saved.Some? && saved.value != "" && parse(saved.value).Some?) ==> state == old(state)
      ensures showSavedOnly == old(showSavedOnly)
    {
      if saved.Some? && saved.value != "" {
        var parsed := parse(saved.value);
        if parsed.Some? {
          state := state.(favorites := parsed.value);
        }
      }
    }

    /** Submitting the form: loading starts, the error is cleared and the
        view switches back to the feed. */
    method StartFetch()
      modifies this
      ensures state == old(state).(loading := true, error := None)
      ensures !showSavedOnly
    {
      state := state.(loading := true, error := None);
      showSavedOnly := false;
    }

    /** The end of a fetch: on success the results replace the
        recommendations; on failure the error message is set and the
        previous recommendations stay. Favourites never change. */
    method FinishFetch(outcome: Result<seq<GiftRecommendation>, Thrown>)
      modifies this
      ensures outcome.Success? ==>
        state == old(state).(loading := false, recommendations := outcome.value, error := None)
      ensures outcome.Failure? ==>
        state == old(state).(loading := false, error := Some(ErrorMessage(outcome.error)))
      ensures showSavedOnly == old(showSavedOnly)
    {
      match outcome
      case Success(results) =>
        state := state.(loading := false, recommendations := results, error := None);
      case Failure(thrown) =>
        state := state.(loading := false, error := Some(ErrorMessage(thrown)));
    }

    /** `handleFetchRecommendations(input)`: one submission, with no other
        event while the reply is awaited, from start to
        completion. A failure always shows the service's fixed message. */
    method HandleFetchRecommendations(input: UserInput, callModel: Request -> ModelReply, parse: string -> Parsed)
      modifies this
      ensures var outcome := GetGiftRecommendations(input, callModel, parse);
        && !state.loading
        && !showSavedOnly
        && state.favorites == old(state.favorites)
        && (outcome.Success? ==> state.recommendations == outcome.value && state.error == None)
        && (outcome.Failure? ==>
              state.recommendations == old(state.recommendations) && state.error == Some(FetchFailedMessage))
    {
      StartFetch();
      var outcome := GetGiftRecommendations(input, callModel, parse);
      FinishFetch(outcome);
    }

    /** `toggleFavorite(gift)`: only the favourites change. */
    method ToggleFavorite(gift: GiftRecommendation)
      modifies this
      ensures state == old(state).(favorites := Toggle(old(state.favorites), gift))
      ensures showSavedOnly == old(showSavedOnly)
      ensures IsFavorited(gift) <==> !old(IsFavorited(gift))
    {
      state := state.(favorites := Toggle(state.favorites, gift));
    }

    /** The "Saved Gifts" button flips the view. */
    method ToggleSavedView()
      modifies this
      ensures showSavedOnly == !old(showSavedOnly)
      ensures state == old(state)
    {
      showSavedOnly := !showSavedOnly;
    }

    /** The "Return to Feed" and "Go Browsing" buttons leave the saved view. */
    method ShowFeed()
      modifies this
      ensures !showSavedOnly
      ensures state == old(state)
    {
      showSavedOnly := false;
    }

    /** Whether a card shows as favourited: some favourite has its id,
        whatever its other fields. */
    predicate IsFavorited(gift: GiftRecommendation)
      reads this
      ensures IsFavorited(gift) <==> exists f :: f in state.favorites && f.id == gift.id
    {
      HasId(state.favorites, gift.id)
    }

    /** `displayedRecommendations`: the favourites in the saved view, the
        latest recommendations otherwise; in the saved view every card
        shows as favourited. */
    function DisplayedRecommendations(): (r: seq<GiftRecommendation>)
      reads this
      ensures showSavedOnly ==> r == state.favorites && forall g :: g in r ==> IsFavorited(g)
      ensures !showSavedOnly ==> r == state.recommendations
    {
      if showSavedOnly then
        assert forall g :: g in state.favorites ==> HasId(state.favorites, g.id) by {
          forall g | g in state.favorites ensures HasId(state.favorites, g.id) {
            var i :| 0 <= i < |state.favorites| && state.favorites[i] == g;
          }
        }
        state.favorites
      else state.recommendations
    }
  }
}
