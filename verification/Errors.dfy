/** Error codes of the system and of the content access framework. */
module Errors {
  const KErrNone := 0
  const KErrNotFound := -1
  const KErrNotSupported := -5
  const KErrArgument := -6
  const KErrBadHandle := -8
  const KErrOverflow := -9
  const KErrAlreadyExists := -11
  const KErrPathNotFound := -12
  const KErrInUse := -14
  const KErrCANotSupported := -17450
  const KErrCANewFileHandleRequired := -17457
}
