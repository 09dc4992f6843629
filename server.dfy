/**
 * The hot-reload server: the registry of connected browser tabs, the
 * broadcast of a reload to them, and the per-change export cycle whose two
 * read callbacks join before publishing.
 */
module ReloadServer {
  import opened Js
  import opened ReloadEnvelope
  import opened ExportPaths
  import JoinBarrier

  /** The id `cuid()` tags a connection with; fresh ids come from a counter here. */
  type ClientId = nat

  /** `WebSocket.CONNECTING`, `OPEN`, `CLOSING`, `CLOSED`. */
  datatype ReadyState = Connecting | Open | Closing | Closed

  /** One connected browser tab, as the server sees it. */
  class Socket {
    const clientId: ClientId
    /** Kept up to date by the transport, which the model does not include. */
    var readyState: ReadyState
    /** Every frame handed to `send`, in order. */
    var sent: seq<string>

    /** The socket the 'connection' event delivers: the handshake is done, nothing sent yet. */
    constructor (clientId: ClientId)
      ensures this.clientId == clientId && readyState == Open && sent == []
    {
      this.clientId := clientId;
      readyState := Open;
      sent := [];
    }

    /** `ws.send(frame)`. */
    method Send(frame: string)
      modifies this`sent
      ensures sent == old(sent) + [frame]
    {
      sent := sent + [frame];
    }
  }

  class Server {
    /** `connectedClients`: each connected socket under its id. */
    var connectedClients: map<ClientId, Socket>
    /** How many ids the fresh-id supply has handed out. */
    var idsIssued: nat
    /** Every socket ever accepted, under the id it was given. */
    ghost var accepted: map<ClientId, Socket>

    /** Ids are never reused, and every registered socket sits under its own id. */
    ghost predicate Valid()
      reads this
    {
      && (forall id :: id in accepted ==> accepted[id].clientId == id && id < idsIssued)
      && (forall id :: id in connectedClients ==> id in accepted && connectedClients[id] == accepted[id])
    }

    /** The server as it starts: no clients. */
    constructor ()
      ensures Valid() && connectedClients == map[] && accepted == map[]
    {
      connectedClients := map[];
      idsIssued := 0;
      accepted := map[];
    }

    /** The 'connection' event: tag the new socket with a fresh id and register it. */
    method OnConnection() returns (ws: Socket)
      requires Valid()
      modifies this
      ensures Valid() && fresh(ws) && ws.readyState == Open && ws.sent == []
      ensures ws.clientId !in old(connectedClients) && ws.clientId !in old(accepted)
      ensures connectedClients == old(connectedClients)[ws.clientId := ws]
      ensures accepted == old(accepted)[ws.clientId := ws]
    {
      ws := new Socket(idsIssued);
      idsIssued := idsIssued + 1;
      connectedClients := connectedClients[ws.clientId := ws];
      accepted := accepted[ws.clientId := ws];
    }

    /** The socket's 'close' event: `delete connectedClients[ws.clientId]`. */
    method OnClose(ws: Socket)
      requires Valid() && ws in accepted.Values
      modifies this`connectedClients
      ensures Valid()
      ensures connectedClients == old(connectedClients) - {ws.clientId}
      ensures ws !in connectedClients.Values
    {
      connectedClients := connectedClients - {ws.clientId};
    }

    /**
     * `messageConnectedClients`: one frame carrying both payloads to every
     * registered socket that is open; the others are skipped.
     */
    method MessageConnectedClients(modelData: string, actionData: string) returns (recipients: set<ClientId>)
      requires Valid()
      modifies connectedClients.Values`sent
      ensures recipients == set id | id in connectedClients && connectedClients[id].readyState == Open
      ensures forall id :: id in connectedClients ==>
        connectedClients[id].sent
          == old(connectedClients[id].sent)
             + (if id in recipients then [Stringify(ReloadMessage(modelData, actionData))] else [])
    {
      var frame := Stringify(ReloadMessage(modelData, actionData));
      var remaining := connectedClients.Keys;
      recipients := {};
      while remaining != {}
        invariant remaining <= connectedClients.Keys
        invariant recipients == set id | id in connectedClients && id !in remaining && connectedClients[id].readyState == Open
        invariant forall id :: id in connectedClients ==>
          connectedClients[id].sent
            == old(connectedClients[id].sent) + (if id in recipients then [frame] else [])
        decreases remaining
      {
        var clientId :| clientId in remaining;
        var ws := connectedClients[clientId];
        if ws.readyState == Open {
          ws.Send(frame);
          recipients := recipients + {clientId};
        }
        remaining := remaining - {clientId};
      }
    }
  }

  /** The callbacks one change registers: the two shell commands and the two file reads. */
  datatype Stage = Export | Convert | ModelFileRead | ActionsFileRead

  /**
   * The closure of one 'change' event: the derived paths, the three join
   * variables, and which of its callbacks are still to run.
   */
  class ReloadCycle {
    const outputs: Outputs
    var modelAndActionsReady: bool
    var modelData: Option<string>
    var actionData: Option<string>
    /** Callbacks registered and not yet run. */
    var awaiting: set<Stage>
    /** Every message this cycle has broadcast. */
    ghost var published: seq<ReloadMessage>

    /** The join variables as a value. */
    function Join(): JoinBarrier.State
      reads this
    {
      JoinBarrier.State(modelAndActionsReady, modelData, actionData)
    }

    /**
     * The callbacks run in the order the code registers them, each at most
     * once, and this cycle has published exactly once if both payloads are
     * stored, and never otherwise.
     */
    ghost predicate Valid()
      reads this
    {
      && JoinBarrier.Consistent(Join())
      && (Export in awaiting ==> awaiting == {Export} && Join() == JoinBarrier.Fresh)
      && (Convert in awaiting ==> ModelFileRead !in awaiting && modelData.None?)
      && (ModelFileRead in awaiting ==> modelData.None?)
      && (ActionsFileRead in awaiting ==> actionData.None?)
      && (JoinBarrier.Joined(Join()) ==> published == [ReloadMessage(modelData.value, actionData.value)])
      && (!JoinBarrier.Joined(Join()) ==> published == [])
    }

    /** The 'change' event: derive the paths, start with a fresh join, run the export command. */
    constructor (blenderFilePath: string)
      ensures Valid()
      ensures outputs == DeriveOutputs(blenderFilePath)
      ensures Join() == JoinBarrier.Fresh && awaiting == {Export} && published == []
    {
      outputs := DeriveOutputs(blenderFilePath);
      modelAndActionsReady := false;
      modelData := None;
      actionData := None;
      awaiting := {Export};
      published := [];
    }

    /** The export command the 'change' event runs. */
    function Command(): string {
      ExportCommand(outputs)
    }

    /**
     * The export command exits. On an error the handler logs and returns:
     * nothing else of this cycle will ever run. Otherwise it starts the
     * conversion command and the read of the actions file.
     */
    method OnExportExit(failed: bool) returns (next: Option<string>, read: Option<string>)
      requires Valid() && Export in awaiting
      modifies this`awaiting
      ensures Valid()
      ensures failed ==> awaiting == {} && next == None && read == None
      ensures !failed ==>
        && awaiting == {Convert, ActionsFileRead}
        && next == Some(ConvertCommand(outputs)) && read == Some(outputs.actionPath)
    {
      if failed {
        awaiting := {};
        next, read := None, None;
      } else {
        awaiting := {Convert, ActionsFileRead};
        next, read := Some(ConvertCommand(outputs)), Some(outputs.actionPath);
      }
    }

    /** The conversion command exits: an error throws, otherwise the read of the model JSON file starts. */
    method OnConvertExit(failed: bool) returns (threw: bool, read: Option<string>)
      requires Valid() && Convert in awaiting
      modifies this`awaiting
      ensures Valid() && threw == failed
      ensures awaiting == old(awaiting) - {Convert} + (if failed then {} else {ModelFileRead})
      ensures read == if failed then None else Some(outputs.jsonPath)
    {
      threw := failed;
      read := None;
      awaiting := awaiting - {Convert};
      if !failed {
        awaiting := awaiting + {ModelFileRead};
        read := Some(outputs.jsonPath);
      }
    }

    /**
     * The model-file read completes (`contents` is None on a read error, which
     * throws). Stores the payload, publishes both if the flag was set, sets it.
     */
    method OnModelFileRead(contents: Option<string>, server: Server) returns (threw: bool, sent: Option<ReloadMessage>)
      requires Valid() && ModelFileRead in awaiting && server.Valid()
      modifies this, server.connectedClients.Values`sent
      ensures Valid() && threw == contents.None? && awaiting == old(awaiting) - {ModelFileRead}
      ensures (Join(), sent) == JoinBarrier.Complete(old(Join()), JoinBarrier.ModelRead(contents))
      ensures published == old(published) + (if sent.Some? then [sent.value] else [])
      ensures forall id :: id in server.connectedClients ==>
        server.connectedClients[id].sent
          == old(server.connectedClients[id].sent)
             + (if sent.Some? && server.connectedClients[id].readyState == Open then [Stringify(sent.value)] else [])
    {
      awaiting := awaiting - {ModelFileRead};
      threw := contents.None?;
      sent := None;
      if !threw {
        modelData := contents;
        if modelAndActionsReady {
          sent := Some(ReloadMessage(modelData.value, actionData.value));
          published := published + [sent.value];
          var _ := server.MessageConnectedClients(modelData.value, actionData.value);
        }
        modelAndActionsReady := true;
      }
    }

    /** The actions-file read completes: the same steps for the actions payload. */
    method OnActionsFileRead(contents: Option<string>, server: Server) returns (threw: bool, sent: Option<ReloadMessage>)
      requires Valid() && ActionsFileRead in awaiting && server.Valid()
      modifies this, server.connectedClients.Values`sent
      ensures Valid() && threw == contents.None? && awaiting == old(awaiting) - {ActionsFileRead}
      ensures (Join(), sent) == JoinBarrier.Complete(old(Join()), JoinBarrier.ActionsRead(contents))
      ensures published == old(published) + (if sent.Some? then [sent.value] else [])
      ensures forall id :: id in server.connectedClients ==>
        server.connectedClients[id].sent
          == old(server.connectedClients[id].sent)
             + (if sent.Some? && server.connectedClients[id].readyState == Open then [Stringify(sent.value)] else [])
    {
      awaiting := awaiting - {ActionsFileRead};
      threw := contents.None?;
      sent := None;
      if !threw {
        actionData := contents;
        if modelAndActionsReady {
          sent := Some(ReloadMessage(modelData.value, actionData.value));
          published := published + [sent.value];
          var _ := server.MessageConnectedClients(modelData.value, actionData.value);
        }
        modelAndActionsReady := true;
      }
    }
  }

  /**
   * The rest of a cycle whose export succeeded: the conversion succeeds and
   * both reads succeed, in the order given. Every open client receives the
   * pair once, and no other client receives anything.
   */
  method FinishCycle(cycle: ReloadCycle, server: Server, model: string, actions: string, modelFirst: bool)
    requires cycle.Valid() && cycle.awaiting == {Convert, ActionsFileRead} && cycle.Join() == JoinBarrier.Fresh
    requires server.Valid()
    modifies cycle, server.connectedClients.Values`sent
    ensures cycle.published == [ReloadMessage(model, actions)]
    ensures forall id :: id in server.connectedClients ==>
      server.connectedClients[id].sent
        == old(server.connectedClients[id].sent)
           + (if server.connectedClients[id].readyState == Open then [Stringify(ReloadMessage(model, actions))] else [])
  {
    var _, _ := cycle.OnConvertExit(false);
    if modelFirst {
      var _, _ := cycle.OnModelFileRead(Some(model), server);
      var _, _ := cycle.OnActionsFileRead(Some(actions), server);
    } else {
      var _, _ := cycle.OnActionsFileRead(Some(actions), server);
      var _, _ := cycle.OnModelFileRead(Some(model), server);
    }
  }

  /**
   * Two changes whose cycles overlap: the second change's cycle completes
   * first, then the first cycle's late reads arrive. With no generation tag,
   * each cycle publishes its own pair, the older one last.
   */
  method OverlappingChanges(blenderFilePath: string, model1: string, actions1: string, model2: string, actions2: string)
    returns (first: ReloadCycle, second: ReloadCycle)
    ensures fresh(first) && fresh(second)
    ensures second.published == [ReloadMessage(model2, actions2)]
    ensures first.published == [ReloadMessage(model1, actions1)]
  {
    var server := new Server();
    first := new ReloadCycle(blenderFilePath);
    var _, _ := first.OnExportExit(false);
    second := new ReloadCycle(blenderFilePath);
    var _, _ := second.OnExportExit(false);
    FinishCycle(second, server, model2, actions2, true);
    FinishCycle(first, server, model1, actions1, false);
  }
}
