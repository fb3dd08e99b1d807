/** Sizes and client types shared by the models, as in `defines.h`; a size
    counts the terminating NUL. */
module Defines {
  const COMMAND_LEN := 513
  const CLIENT_ID_LEN := 64
  const CLIENT_NICK_LEN := 32
  const CLIENT_PASS_LEN := 65
  const CLIENT_USER_LEN := 20
  const CLIENT_HOST_LEN := 64
  const CHANNEL_NAME_LEN := 51
  const CHANNEL_MODE_LEN := 21
  const MASK_LEN := 128

  /** Type of a client; Unregistered stands for all stages of a login. */
  datatype Kind = Unregistered | User | Server | Service
}
