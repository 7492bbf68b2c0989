/** The outcomes the route handlers answer with, by HTTP status and error kind. */
module Http {

  /** Why a write was refused with 400 Bad Request. */
  datatype Reason =
    | MissingFields                     // a required field is missing
    | DuplicateEmail                    // the email is already registered
    | InvalidAccessLevel                // the access level is neither admin nor common
    | SoloistNotFound                   // music routes: the soloist id does not resolve
    | InvalidSongList                   // scale update: songs is not a non-empty array
    | EntryMissingIds                   // a scale entry lacks a truthy musicId or soloistId
    | MusicRefNotFound(musicId: int)    // a scale entry names a song that does not exist
    | SoloistRefNotFound(soloistId: int) // a scale entry names a member that does not exist

  datatype Reply<T> =
    | Ok(body: T)            // 200
    | Created(body: T)       // 201
    | BadRequest(reason: Reason) // 400
    | NotFound               // 404
    | ServerError            // 500
}
