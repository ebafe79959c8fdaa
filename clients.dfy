/**
 * The server's table of connected clients (app.js `clients`) and the
 * pure views of it: lookup by id and the public list broadcast to
 * everyone.
 */
module Clients {
  /** A client is identified by its socket id. */
  type ClientId = string

  /** A client record: id, display name, connection flag (the socket handle is not modelled). */
  datatype Client = Client(id: ClientId, name: string, connected: bool)

  /** What `getPublishableClientList` exposes of a client. */
  datatype PublicClient = PublicClient(id: ClientId, name: string)

  /** Socket ids are unique, so no two rows share an id. */
  predicate DistinctIds(clients: seq<Client>)
  {
    forall i, j :: 0 <= i < j < |clients| ==> clients[i].id != clients[j].id
  }

  predicate HasId(clients: seq<Client>, id: ClientId)
  {
    exists i :: 0 <= i < |clients| && clients[i].id == id
  }

  /**
   * The row the lookups (`getIdxOfClient`, `getNameOfClient`,
   * `getClientWithId`, `renameClient`, `disconnectClientWithId`) stop
   * at: the first row with the id, or -1.
   */
  function IndexOfId(clients: seq<Client>, id: ClientId): (r: int)
    ensures -1 <= r < |clients|
    ensures r == -1 <==> !HasId(clients, id)
    ensures r >= 0 ==> clients[r].id == id
    ensures r >= 0 ==> forall i :: 0 <= i < r ==> clients[i].id != id
  {
    if clients == [] then -1
    else if clients[0].id == id then 0
    else
      var r := IndexOfId(clients[1..], id);
      if r == -1 then -1 else r + 1
  }

  /** With unique ids, the row holding an id is the one the lookups find. */
  lemma IndexOfDistinct(clients: seq<Client>, k: int)
    requires DistinctIds(clients)
    requires 0 <= k < |clients|
    ensures IndexOfId(clients, clients[k].id) == k
  {
  }

  /** `getPublishableClientList`: the id and name of every client, in table order. */
  function PublishableClientList(clients: seq<Client>): (r: seq<PublicClient>)
    ensures |r| == |clients|
    ensures forall i :: 0 <= i < |clients| ==> r[i].id == clients[i].id && r[i].name == clients[i].name
  {
    if clients == [] then []
    else [PublicClient(clients[0].id, clients[0].name)] + PublishableClientList(clients[1..])
  }

  /** The public list does not depend on the connection flags. */
  lemma PublishableIgnoresConnected(a: seq<Client>, b: seq<Client>)
    requires |a| == |b|
    requires forall i :: 0 <= i < |a| ==> a[i].id == b[i].id && a[i].name == b[i].name
    ensures PublishableClientList(a) == PublishableClientList(b)
  {
  }
}
