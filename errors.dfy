/**
 * The error kinds of lib/util/error.js, and the errors that the code the services
 * call can throw on the same paths.
 */
module Errors {

  datatype Error =
    // lib/util/error.js
    | DeviceKeys
    | PublicKeys
    | PrivateKey
    | EncryptionBadInput
    | EncryptionBadPath(message: string)
    | PublishToUser
    | EncryptedPublishToUser
    // thrown by the jsonpointer package: "Invalid JSON pointer." / "Invalid input object."
    | InvalidPointer
    | InvalidInputObject
    // a JavaScript TypeError: a property read on undefined, a property write on a
    // primitive, or `new` applied to the undefined `Err.configKeyMissing`
    | TypeError
    // node-jose could not import the private key, unwrap the content key or authenticate
    | DecryptionFailure
    // the error lib/util/config.js means to raise for a missing ability key; it is
    // not defined in lib/util/error.js
    | ConfigKeyMissing(message: string)

  /** The message test/util/config.test.js expects for a missing ability key. */
  const ConfigKeyMissingMessage := "A key must be provided if multiple abilities are configured"
}
