/** Failure-carrying values shared by every module of the model.
    `Option` stands for TypeScript's optional fields (`url?`, `children?`);
    `Result` stands for a computation that may throw. */
module Outcomes {

  datatype Option<+T> = None | Some(value: T)

  /** `Err` carries a short description of the exception that would be thrown. */
  datatype Result<+T> = Ok(value: T) | Err(error: string)
}
