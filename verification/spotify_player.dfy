/**
 * `SpotifyPlayerService` (src/services/spotifyPlayer.ts): the listener
 * registry and the player state the service guards its calls with. The Web
 * Playback SDK player is represented by whether one exists; the SDK, the
 * callbacks' effects and the Web API request are outside the model.
 */
module SpotifyPlayer {
  import opened Wrappers
  import opened Sequences

  /** A registered callback, known by its identity (`!==` compares it). */
  type Callback = nat

  /** What a guarded call does: its promise rejects with the message, or the
      call is passed on to the SDK player or the Web API. */
  datatype Call = Rejected(message: string) | Passed

  const NotReady := "Spotify player not ready"
  const NotInitialized := "Player not initialized"

  /** A `string | null` field read as a condition: `null` and `""` are falsy. */
  predicate Falsy(s: Option<string>)
  {
    s.None? || s.value == []
  }

  /** `listeners[event]`, an absent entry reading as no listeners. */
  function ListenersOf(listeners: map<string, seq<Callback>>, event: string): seq<Callback>
  {
    if event in listeners then listeners[event] else []
  }

  /** The list `off(event, callback)` leaves: every other callback, in order. */
  function Without(list: seq<Callback>, callback: Callback): seq<Callback>
  {
    Filter(list, cb => cb != callback)
  }

  /** `off` removes every registration of the callback and keeps each other
      registration, in order. */
  lemma WithoutSpec(list: seq<Callback>, more: seq<Callback>, callback: Callback, other: Callback)
    ensures callback !in Without(list, callback)
    ensures Without(list + more, callback) == Without(list, callback) + Without(more, callback)
    ensures other != callback ==> multiset(Without(list, callback))[other] == multiset(list)[other]
  {
    FilterCounts(list, cb => cb != callback, callback);
    FilterCounts(list, cb => cb != callback, other);
    FilterAppend(list, more, cb => cb != callback);
  }

  /** Registering a new callback and unregistering it restores the list. */
  lemma OnThenOff(list: seq<Callback>, callback: Callback)
    requires callback !in list
    ensures Without(list + [callback], callback) == list
  {
    FilterAppend(list, [callback], cb => cb != callback);
    FilterOne(callback, cb => cb != callback);
    FilterAll(list, cb => cb != callback);
  }

  class SpotifyPlayerService {
    var hasPlayer: bool
    var deviceId: Option<string>
    var accessToken: Option<string>
    var isReady: bool
    var listeners: map<string, seq<Callback>>

    constructor()
      ensures !hasPlayer && deviceId.None? && accessToken.None? && !isReady && listeners == map[]
    {
      hasPlayer := false;
      deviceId := None;
      accessToken := None;
      isReady := false;
      listeners := map[];
    }

    /** `playTrack`: needs a token and a device id. */
    function PlayTrackCall(): Call
      reads this
    {
      if Falsy(accessToken) || Falsy(deviceId) then Rejected(NotReady) else Passed
    }

    /** `pause`, `resume`, `togglePlay` and `setVolume`: need a player. */
    function PlayerCall(): Call
      reads this
    {
      if !hasPlayer then Rejected(NotInitialized) else Passed
    }

    /** `getCurrentState`: `null` without a player, else the player's answer. */
    function CurrentStateAsked(): bool
      reads this
    {
      hasPlayer
    }

    method PlayTrack(uri: string) returns (c: Call)
      ensures c == PlayTrackCall()
      ensures c.Rejected? <==> Falsy(accessToken) || Falsy(deviceId)
    {
      if Falsy(accessToken) || Falsy(deviceId) {
        return Rejected(NotReady);
      }
      c := Passed;
    }

    method Pause() returns (c: Call)
      ensures c == PlayerCall() && (c.Rejected? <==> !hasPlayer)
    {
      c := if hasPlayer then Passed else Rejected(NotInitialized);
    }

    method Resume() returns (c: Call)
      ensures c == PlayerCall() && (c.Rejected? <==> !hasPlayer)
    {
      c := if hasPlayer then Passed else Rejected(NotInitialized);
    }

    method TogglePlay() returns (c: Call)
      ensures c == PlayerCall() && (c.Rejected? <==> !hasPlayer)
    {
      c := if hasPlayer then Passed else Rejected(NotInitialized);
    }

    method SetVolume(volume: int) returns (c: Call)
      ensures c == PlayerCall() && (c.Rejected? <==> !hasPlayer)
    {
      c := if hasPlayer then Passed else Rejected(NotInitialized);
    }

    /** Returns whether the player is asked; `false` stands for `null`. */
    method GetCurrentState() returns (asked: bool)
      ensures asked == CurrentStateAsked() && (asked <==> hasPlayer)
    {
      asked := hasPlayer;
    }

    /** Drops the player, whatever the state before: afterwards every guarded
        call rejects and there is no current state. */
    method Disconnect()
      modifies this
      ensures !hasPlayer && !isReady && deviceId.None?
      ensures accessToken == old(accessToken) && listeners == old(listeners)
      ensures PlayTrackCall() == Rejected(NotReady)
      ensures PlayerCall() == Rejected(NotInitialized) && !CurrentStateAsked()
    {
      hasPlayer := false;
      isReady := false;
      deviceId := None;
    }

    /** `initializePlayer`, as far as the service's own state goes: with a
        token and the SDK loaded a player is created; device id and readiness
        come later from the SDK's `ready` event. */
    method InitializePlayer(sdkLoaded: bool)
      modifies this
      ensures hasPlayer == (old(hasPlayer) || (!Falsy(accessToken) && sdkLoaded))
      ensures deviceId == old(deviceId) && isReady == old(isReady)
      ensures accessToken == old(accessToken) && listeners == old(listeners)
    {
      if Falsy(accessToken) || !sdkLoaded {
        return;
      }
      hasPlayer := true;
    }

    /** Stores the token; a ready player is dropped and created again with it. */
    method SetAccessToken(token: string, sdkLoaded: bool)
      modifies this
      ensures accessToken == Some(token) && listeners == old(listeners)
      ensures !(old(hasPlayer) && old(isReady)) ==>
        hasPlayer == old(hasPlayer) && isReady == old(isReady) && deviceId == old(deviceId)
      ensures old(hasPlayer) && old(isReady) ==>
        hasPlayer == (token != [] && sdkLoaded) && !isReady && deviceId.None?
    {
      accessToken := Some(token);
      if hasPlayer && isReady {
        Disconnect();
        InitializePlayer(sdkLoaded);
      }
    }

    /** The SDK's `ready` event: the device id is stored, the player is ready,
        and the `ready` listeners are called. */
    method OnReady(device: string) returns (invoked: seq<Callback>)
      modifies this
      ensures deviceId == Some(device) && isReady
      ensures hasPlayer == old(hasPlayer) && accessToken == old(accessToken) && listeners == old(listeners)
      ensures invoked == ListenersOf(listeners, "ready")
    {
      deviceId := Some(device);
      isReady := true;
      invoked := Emit("ready");
    }

    /** The SDK's `not_ready` event. */
    method OnNotReady() returns (invoked: seq<Callback>)
      modifies this
      ensures !isReady
      ensures hasPlayer == old(hasPlayer) && deviceId == old(deviceId)
      ensures accessToken == old(accessToken) && listeners == old(listeners)
      ensures invoked == ListenersOf(listeners, "not_ready")
    {
      isReady := false;
      invoked := Emit("not_ready");
    }

    /** `getDeviceId`: the device id the last `ready` event gave, none after a
        disconnect. */
    method GetDeviceId() returns (device: Option<string>)
      ensures device == deviceId
    {
      device := deviceId;
    }

    /** `isPlayerReady`. */
    method IsPlayerReady() returns (ready: bool)
      ensures ready == isReady
    {
      ready := isReady;
    }

    /** `on`: appends the callback to the event's list, creating the list if
        needed; no other event changes. */
    method On(event: string, callback: Callback)
      modifies this
      ensures listeners == old(listeners)[event := ListenersOf(old(listeners), event) + [callback]]
      ensures hasPlayer == old(hasPlayer) && deviceId == old(deviceId)
      ensures accessToken == old(accessToken) && isReady == old(isReady)
    {
      if event !in listeners {
        listeners := listeners[event := []];
      }
      listeners := listeners[event := listeners[event] + [callback]];
    }

    /** `off`: nothing for an event never registered (no entry is created);
        otherwise the callback's registrations are removed, or all of the
        event's when no callback is given. */
    method Off(event: string, callback: Option<Callback>)
      modifies this
      ensures event !in old(listeners) ==> listeners == old(listeners)
      ensures event in old(listeners) && callback.Some? ==>
        listeners == old(listeners)[event := Without(old(listeners)[event], callback.value)]
      ensures event in old(listeners) && callback.None? ==>
        listeners == old(listeners)[event := []]
      ensures hasPlayer == old(hasPlayer) && deviceId == old(deviceId)
      ensures accessToken == old(accessToken) && isReady == old(isReady)
    {
      if event !in listeners {
        return;
      }
      if callback.Some? {
        listeners := listeners[event := Without(listeners[event], callback.value)];
      } else {
        listeners := listeners[event := []];
      }
    }

    /** `emit`: calls the event's listeners one by one, in registration order;
        returns the callbacks called. */
    method Emit(event: string) returns (invoked: seq<Callback>)
      ensures invoked == ListenersOf(listeners, event)
    {
      invoked := [];
      if event in listeners {
        var list := listeners[event];
        for k := 0 to |list|
          invariant invoked == list[..k]
        {
          invoked := invoked + [list[k]];
        }
        assert list[..|list|] == list;
      }
    }
  }
}
