/** The failures the sync code tells apart. */
module Errors {

  datatype AppError = RoleLinkNotFound | UserLimitReached(limit: nat) | RoleLinkDisabled | RemovalHeld | OtherError
}
