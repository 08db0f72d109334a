/**
 * The training cache: a list of trainings, the training in focus, a loading
 * flag and the last error, moved by the pending, fulfilled and rejected cases
 * of six asynchronous operations and by two plain reducers. Trainings are
 * compared on `id`; a created training goes to the front of the list.
 */
module TrainingSlice {
  import opened Wrappers
  import opened Domain
  import ListOps
  import AsyncThunk

  /** The six asynchronous operations on trainings. */
  datatype Operation = FetchAll | FetchById | Create | Update | Delete | AssignUsers

  /** The fixed message each operation rejects with when the server sends none. */
  function Fallback(op: Operation): (m: string)
    ensures m != ""
  {
    match op
    case FetchAll => "Failed to fetch trainings"
    case FetchById => "Failed to fetch training"
    case Create => "Failed to create training"
    case Update => "Failed to update training"
    case Delete => "Failed to delete training"
    case AssignUsers => "Failed to assign users"
  }

  /** Different operations fall back to different messages, so the banner tells which one failed. */
  lemma FallbacksDistinct(a: Operation, b: Operation)
    requires a != b
    ensures Fallback(a) != Fallback(b)
  {
  }

  /** A rejected operation always stores a non-empty message, so its error banner always shows. */
  lemma RejectionNeverBlank(op: Operation, serverMessage: Option<string>)
    ensures AsyncThunk.RejectionMessage(serverMessage, Fallback(op)) != ""
  {
  }

  class TrainingState {
    var trainings: seq<Training>
    var currentTraining: Option<Training>
    var isLoading: bool
    var error: Option<string>

    /** No two cached trainings share an `id`. */
    predicate UniqueIds()
      reads this
    {
      ListOps.UniqueKeys(trainings, TrainingKey)
    }

    /** The initial state: nothing cached, nothing in focus, idle, no error. */
    constructor ()
      ensures trainings == [] && currentTraining == None && !isLoading && error == None
      ensures UniqueIds()
    {
      trainings := [];
      currentTraining := None;
      isLoading := false;
      error := None;
    }

    /** `clearError`: only the error is reset. */
    method ClearError()
      modifies this`error
      ensures error == None
      ensures trainings == old(trainings) && currentTraining == old(currentTraining) && isLoading == old(isLoading)
    {
      error := None;
    }

    /** `clearCurrentTraining`: only the focus is reset. */
    method ClearCurrentTraining()
      modifies this`currentTraining
      ensures currentTraining == None
      ensures trainings == old(trainings) && isLoading == old(isLoading) && error == old(error)
    {
      currentTraining := None;
    }

    /** The pending case, identical for all six operations: loading starts and the error is cleared. */
    method Pending()
      modifies this`isLoading, this`error
      ensures isLoading && error == None
      ensures trainings == old(trainings) && currentTraining == old(currentTraining)
    {
      isLoading := true;
      error := None;
    }

    /** The rejected case, identical for all six operations: loading stops and the message is stored; cached data is untouched. */
    method Rejected(message: string)
      modifies this`isLoading, this`error
      ensures !isLoading && error == Some(message)
      ensures trainings == old(trainings) && currentTraining == old(currentTraining)
    {
      isLoading := false;
      error := Some(message);
    }

    /** `fetchTrainings.fulfilled`: the list is replaced wholesale. */
    method FetchAllFulfilled(payload: seq<Training>)
      modifies this`isLoading, this`trainings
      ensures !isLoading && trainings == payload
      ensures currentTraining == old(currentTraining) && error == old(error)
    {
      isLoading := false;
      trainings := payload;
    }

    /** `fetchTrainingById.fulfilled`: only the focus is set. */
    method FetchByIdFulfilled(payload: Training)
      modifies this`isLoading, this`currentTraining
      ensures !isLoading && currentTraining == Some(payload)
      ensures trainings == old(trainings) && error == old(error)
    {
      isLoading := false;
      currentTraining := Some(payload);
    }

    /**
     * `createTraining.fulfilled`: the new training goes to the front, every old
     * one moves back one place; when its id was new it is then the only one with it.
     */
    method CreateFulfilled(payload: Training)
      modifies this`isLoading, this`trainings
      ensures !isLoading && trainings == [payload] + old(trainings)
      ensures |trainings| == |old(trainings)| + 1
      ensures forall i :: 0 <= i < |old(trainings)| ==> trainings[i + 1] == old(trainings)[i]
      ensures old(UniqueIds()) && !ListOps.HasKey(old(trainings), TrainingKey, payload.id) ==>
        UniqueIds() && forall i :: 0 <= i < |trainings| && trainings[i].id == payload.id ==> i == 0
      ensures currentTraining == old(currentTraining) && error == old(error)
    {
      isLoading := false;
      if UniqueIds() && !ListOps.HasKey(trainings, TrainingKey, payload.id) {
        ListOps.PrependKeepsUnique(trainings, TrainingKey, payload);
      }
      trainings := [payload] + trainings;
    }

    /**
     * `updateTraining.fulfilled`: the first cached training with the payload's
     * id is replaced (length and all other positions kept, nothing changes when
     * none matches), and the focus is replaced exactly when its id matches.
     */
    method UpdateFulfilled(payload: Training)
      modifies this`isLoading, this`trainings, this`currentTraining
      ensures !isLoading
      ensures trainings == ListOps.ReplaceFirst(old(trainings), TrainingKey, payload)
      ensures |trainings| == |old(trainings)|
      ensures !ListOps.HasKey(old(trainings), TrainingKey, payload.id) ==> trainings == old(trainings)
      ensures currentTraining ==
        if old(currentTraining).Some? && old(currentTraining).value.id == payload.id
        then Some(payload) else old(currentTraining)
      ensures old(UniqueIds()) ==> UniqueIds()
      ensures error == old(error)
    {
      isLoading := false;
      if UniqueIds() {
        ListOps.ReplaceFirstKeepsUnique(trainings, TrainingKey, payload);
      }
      var index := ListOps.FindIndex(trainings, TrainingKey, payload.id);
      if index.Some? {
        trainings := trainings[index.value := payload];
      }
      if currentTraining.Some? && currentTraining.value.id == payload.id {
        currentTraining := Some(payload);
      }
    }

    /** `assignUsers.fulfilled`: the server's training replaces the cached copy exactly as an update does. */
    method AssignUsersFulfilled(payload: Training)
      modifies this`isLoading, this`trainings, this`currentTraining
      ensures !isLoading
      ensures trainings == ListOps.ReplaceFirst(old(trainings), TrainingKey, payload)
      ensures |trainings| == |old(trainings)|
      ensures !ListOps.HasKey(old(trainings), TrainingKey, payload.id) ==> trainings == old(trainings)
      ensures currentTraining ==
        if old(currentTraining).Some? && old(currentTraining).value.id == payload.id
        then Some(payload) else old(currentTraining)
      ensures old(UniqueIds()) ==> UniqueIds()
      ensures error == old(error)
    {
      UpdateFulfilled(payload);
    }

    /**
     * `deleteTraining.fulfilled`: every training with the id is filtered out,
     * the rest keep their order, and the focus is cleared exactly when its id matches.
     */
    method DeleteFulfilled(id: string)
      modifies this`isLoading, this`trainings, this`currentTraining
      ensures !isLoading
      ensures trainings == ListOps.RemoveKey(old(trainings), TrainingKey, id)
      ensures !ListOps.HasKey(trainings, TrainingKey, id)
      ensures currentTraining ==
        if old(currentTraining).Some? && old(currentTraining).value.id == id
        then None else old(currentTraining)
      ensures old(UniqueIds()) ==> UniqueIds()
      ensures error == old(error)
    {
      isLoading := false;
      if UniqueIds() {
        ListOps.RemoveKeyKeepsUnique(trainings, TrainingKey, id);
      }
      trainings := ListOps.RemoveKey(trainings, TrainingKey, id);
      if currentTraining.Some? && currentTraining.value.id == id {
        currentTraining := None;
      }
    }
  }
}
