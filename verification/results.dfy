/** Outcome types shared by the sampler model.

    The sampler signals failures by raising Python exceptions (an assertion,
    an IndexError from NumPy, a TypeError from a call with the wrong number of
    arguments, ...).  Each such exception becomes one `Error` value here, so
    that every operation returns its error path explicitly instead of
    forbidding it in a precondition.
 */
module Results {

  /** The exceptions the modelled code can raise. */
  datatype Error =
    | TooFewWalkers          // `assert nwalkers > npars` in the constructor
    | LengthMismatch         // `assert len(inds) == len(vals)` in fix_parameters
    | FixedIndexOutOfRange   // NumPy IndexError when pinning a fixed dimension
    | NoPartner              // `randint(0)` when there is a single walker
    | PosteriorArity         // TypeError: posterior wrapper called with two arguments
    | UnboundLocal           // UnboundLocalError: a local variable read before any assignment
    | DrawsExhausted         // the supplied random candidates ran out before the loop ended

  datatype Option<+T> = None | Some(value: T)

  datatype Result<+T> = Ok(value: T) | Err(error: Error)
}
