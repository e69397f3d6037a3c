/** The errors a message of the rollup contract can return. */
module RollupErrors {

  datatype AccessControlError = InvalidCaller | MissingRole | RoleRedundant

  datatype Error =
    | InvalidPopTarget
    | ConditionNotMet
    | UnsupportedAction
    | FailedToDecode
    | QueueIndexOverflow
    | NotGranted(cause: AccessControlError)
    | AccessControlFailure(cause: AccessControlError)
    | InvalidDestination
    | NonceTooLow
    | IncorrectSignature
    | PublicKeyNotMatch
    | PublicKeyIncorrect
    | NonceOverflow
    | RuntimeError(code: nat)
    | BusinessError(code: nat)
}
