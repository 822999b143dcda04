/** The sizes that src/chat_server.c fixes for its clients. */
module Sizes {
  const MAX_LINE_LEN := 512
  const MAX_NAME_LEN := 32
  const MAX_POOLS := 16
  const CHUNKS := 1023 // max_clients_in_pool
}
